/**
 * The board store of the kanban component: each operation takes the
 * snapshot (`boards`, `currentBoardId`) and returns the snapshot that the
 * component hands to `setBoards` / `setCurrentBoardId`.
 */
module BoardStore {
  import opened Wrappers
  import opened Text
  import opened Kanban

  /** At least one board, board ids unique, and `currentBoardId` names one of them. */
  predicate Valid(s: Snapshot) {
    |s.boards| > 0 && DistinctBoardIds(s.boards) && FindBoard(s.boards, s.currentBoardId).Some?
  }

  /** The state the component starts in: one seeded board with five cards. */
  function InitialSnapshot(): Snapshot {
    Snapshot([
      Board("board-1", "Project Alpha", "Main project dashboard", [
        Column("1", "To Do", [
          Card("card-1", "Design wireframes", "Create initial wireframes for the new feature",
               "Alex Chen", High, Some("2024-02-15"), None),
          Card("card-2", "Setup development environment", "Configure local development setup",
               "Sarah Kim", Medium, None, None)]),
        Column("2", "In Progress", [
          Card("card-3", "Implement authentication", "Add login and signup functionality",
               "Mike Johnson", High, Some("2024-02-20"), None)]),
        Column("3", "Review", [
          Card("card-4", "Code review for API endpoints", "Review REST API implementation",
               "Emma Davis", Medium, Some("2024-02-18"), None)]),
        Column("4", "Done", [
          Card("card-5", "Project setup", "Initialize project repository and basic structure",
               "Team Lead", Low, None, None)])])],
      "board-1")
  }

  lemma InitialSnapshotValid()
    ensures Valid(InitialSnapshot())
    ensures DistinctColumnIds(CurrentColumns(InitialSnapshot()))
    ensures TotalCards(CurrentColumns(InitialSnapshot())) == 5
    ensures CardIdsUnique(CurrentColumns(InitialSnapshot()))
  {
    var cols := CurrentColumns(InitialSnapshot());
    forall x ensures Occurrences(cols, x) <= 1 {
      assert Occurrences(cols[3..], x) == CountId(cols[3].cards, x);
      assert Occurrences(cols[2..], x) == CountId(cols[2].cards, x) + CountId(cols[3].cards, x);
      assert Occurrences(cols[1..], x) == CountId(cols[1].cards, x) + CountId(cols[2].cards, x) + CountId(cols[3].cards, x);
    }
  }

  // ---------------------------------------------------------------------------
  // updateBoardColumns

  /** `boards.map(b => b.id === currentId ? {...b, columns: cols} : b)`. */
  function UpdateBoardColumns(boards: seq<Board>, currentId: string, cols: seq<Column>): (r: seq<Board>)
    ensures |r| == |boards|
    ensures forall i :: 0 <= i < |r| ==>
      r[i].id == boards[i].id && r[i].name == boards[i].name && r[i].description == boards[i].description
    ensures forall i :: 0 <= i < |r| && boards[i].id != currentId ==> r[i] == boards[i]
    ensures forall i :: 0 <= i < |r| && boards[i].id == currentId ==> r[i].columns == cols
  {
    seq(|boards|, i requires 0 <= i < |boards| =>
      if boards[i].id == currentId then boards[i].(columns := cols) else boards[i])
  }

  /** Two board lists that agree on every board's id, name and description, position by position. */
  predicate SameHeaders(a: seq<Board>, b: seq<Board>) {
    |a| == |b| && forall i :: 0 <= i < |a| ==>
      a[i].id == b[i].id && a[i].name == b[i].name && a[i].description == b[i].description
  }

  /** The snapshot in which the current board's columns are replaced. */
  function WithCurrentColumns(s: Snapshot, cols: seq<Column>): (r: Snapshot)
    ensures r.boards == UpdateBoardColumns(s.boards, s.currentBoardId, cols)
    ensures SameHeaders(s.boards, r.boards)
    ensures r.currentBoardId == s.currentBoardId && |r.boards| == |s.boards|
    ensures forall i :: 0 <= i < |s.boards| && s.boards[i].id != s.currentBoardId ==> r.boards[i] == s.boards[i]
    ensures FindBoard(r.boards, r.currentBoardId) == FindBoard(s.boards, s.currentBoardId)
    ensures FindBoard(s.boards, s.currentBoardId).Some? ==> CurrentColumns(r) == cols
    ensures FindBoard(s.boards, s.currentBoardId).None? ==> r == s
    ensures Valid(r) <==> Valid(s)
  {
    var boards := UpdateBoardColumns(s.boards, s.currentBoardId, cols);
    FindBoardSameIds(boards, s.boards, s.currentBoardId);
    assert FindBoard(s.boards, s.currentBoardId).None? ==> boards == s.boards;
    Snapshot(boards, s.currentBoardId)
  }

  /** Writing back the current columns unchanged leaves a valid snapshot as it was. */
  lemma WithCurrentColumnsUnchanged(s: Snapshot)
    requires Valid(s)
    ensures WithCurrentColumns(s, CurrentColumns(s)) == s
  {
    var r := WithCurrentColumns(s, CurrentColumns(s));
    var k := FindBoard(s.boards, s.currentBoardId).value;
    forall i | 0 <= i < |s.boards| ensures r.boards[i] == s.boards[i] {
      if s.boards[i].id == s.currentBoardId {
        assert i == k;
      }
    }
  }

  // ---------------------------------------------------------------------------
  // addCard

  /** The card the add-card form creates: its title as typed, not trimmed. */
  function NewCard(id: string, title: string, description: string): Card {
    Card(id, title, description, "Unassigned", Medium, None, None)
  }

  /** The columns with `card` appended to the one whose id is `columnId`. */
  function AppendToColumn(cols: seq<Column>, columnId: string, card: Card): (r: seq<Column>)
    ensures |r| == |cols|
    ensures forall j :: 0 <= j < |cols| ==> r[j].id == cols[j].id && r[j].title == cols[j].title
    ensures forall j :: 0 <= j < |cols| && cols[j].id == columnId ==> r[j].cards == cols[j].cards + [card]
    ensures forall j :: 0 <= j < |cols| && cols[j].id != columnId ==> r[j] == cols[j]
  {
    seq(|cols|, j requires 0 <= j < |cols| =>
      if cols[j].id == columnId then cols[j].(cards := cols[j].cards + [card]) else cols[j])
  }

  /** `addCard(columnId)` with the form's title and description and a fresh id. */
  function AddCard(s: Snapshot, columnId: string, title: string, description: string, newId: string): (r: Snapshot)
    ensures IsBlank(title) ==> r == s
    ensures r.currentBoardId == s.currentBoardId && |r.boards| == |s.boards|
    ensures forall i :: 0 <= i < |s.boards| && s.boards[i].id != s.currentBoardId ==> r.boards[i] == s.boards[i]
    ensures !IsBlank(title) ==>
      CurrentColumns(r) == AppendToColumn(CurrentColumns(s), columnId, NewCard(newId, title, description))
    ensures !IsBlank(title) ==> (r.boards ==
      UpdateBoardColumns(s.boards, s.currentBoardId, AppendToColumn(CurrentColumns(s), columnId, NewCard(newId, title, description))))
    ensures SameHeaders(s.boards, r.boards)
    ensures Valid(r) <==> Valid(s)
  {
    if Trim(title) == [] then s
    else WithCurrentColumns(s, AppendToColumn(CurrentColumns(s), columnId, NewCard(newId, title, description)))
  }

  /**
   * Adding a card to a column the board has once puts exactly one more card on
   * the board, and a fresh id keeps card ids unique.
   */
  lemma AddCardCounts(s: Snapshot, columnId: string, title: string, description: string, newId: string, j: nat)
    requires Valid(s) && !IsBlank(title)
    requires DistinctColumnIds(CurrentColumns(s))
    requires j < |CurrentColumns(s)| && CurrentColumns(s)[j].id == columnId
    ensures TotalCards(CurrentColumns(AddCard(s, columnId, title, description, newId))) == TotalCards(CurrentColumns(s)) + 1
    ensures Occurrences(CurrentColumns(AddCard(s, columnId, title, description, newId)), newId) == Occurrences(CurrentColumns(s), newId) + 1
    ensures CardIdsUnique(CurrentColumns(s)) && Occurrences(CurrentColumns(s), newId) == 0 ==>
      CardIdsUnique(CurrentColumns(AddCard(s, columnId, title, description, newId)))
  {
    AppendCounts(CurrentColumns(s), columnId, NewCard(newId, title, description), j);
  }

  /** Appending to column `j` adds one card, and one occurrence of the new card's id only. */
  lemma AppendCounts(cols: seq<Column>, columnId: string, card: Card, j: nat)
    requires DistinctColumnIds(cols)
    requires j < |cols| && cols[j].id == columnId
    ensures TotalCards(AppendToColumn(cols, columnId, card)) == TotalCards(cols) + 1
    ensures forall x :: (Occurrences(AppendToColumn(cols, columnId, card), x) ==
      Occurrences(cols, x) + (if x == card.id then 1 else 0))
  {
    var col := cols[j].(cards := cols[j].cards + [card]);
    AppendToColumnAt(cols, columnId, card, j);
    TotalCardsUpdate(cols, j, col);
    forall x ensures Occurrences(cols[j := col], x) == Occurrences(cols, x) + (if x == card.id then 1 else 0) {
      OccurrencesUpdate(cols, j, col, x);
      CountIdAppend(cols[j].cards, card, x);
    }
  }

  /** With distinct column ids, appending touches the one column `j` only. */
  lemma AppendToColumnAt(cols: seq<Column>, columnId: string, card: Card, j: nat)
    requires DistinctColumnIds(cols)
    requires j < |cols| && cols[j].id == columnId
    ensures AppendToColumn(cols, columnId, card) == cols[j := cols[j].(cards := cols[j].cards + [card])]
  {
    var r := AppendToColumn(cols, columnId, card);
    forall k | 0 <= k < |cols| ensures r[k] == cols[j := cols[j].(cards := cols[j].cards + [card])][k] {
      if k != j {
        assert cols[k].id != columnId;
      }
    }
  }

  // ---------------------------------------------------------------------------
  // updateCard

  /** Which fields an update names; a field left `None` keeps the card's value. */
  datatype CardPatch = CardPatch(
    title: Option<string>,
    description: Option<string>,
    assignee: Option<string>,
    priority: Option<Priority>,
    dueDate: Option<Option<string>>,
    comments: Option<seq<Comment>>)

  /** `{...card, ...patch}`: the id is never part of a patch. */
  function Merge(c: Card, p: CardPatch): (r: Card)
    ensures r.id == c.id
    ensures r.title == (if p.title.Some? then p.title.value else c.title)
    ensures r.description == (if p.description.Some? then p.description.value else c.description)
    ensures r.assignee == (if p.assignee.Some? then p.assignee.value else c.assignee)
    ensures r.priority == (if p.priority.Some? then p.priority.value else c.priority)
    ensures r.dueDate == (if p.dueDate.Some? then p.dueDate.value else c.dueDate)
    ensures r.comments == (if p.comments.Some? then p.comments else c.comments)
    ensures p == CardPatch(None, None, None, None, None, None) ==> r == c
  {
    Card(c.id, p.title.GetOr(c.title), p.description.GetOr(c.description), p.assignee.GetOr(c.assignee),
         p.priority.GetOr(c.priority), p.dueDate.GetOr(c.dueDate), if p.comments.Some? then p.comments else c.comments)
  }

  function PatchCardList(cards: seq<Card>, cardId: string, p: CardPatch): seq<Card> {
    seq(|cards|, k requires 0 <= k < |cards| => if cards[k].id == cardId then Merge(cards[k], p) else cards[k])
  }

  /** Every card with the id, in every column, merged with the patch. */
  function PatchCards(cols: seq<Column>, cardId: string, p: CardPatch): (r: seq<Column>)
    ensures |r| == |cols|
    ensures forall j :: 0 <= j < |cols| ==>
      r[j].id == cols[j].id && r[j].title == cols[j].title && |r[j].cards| == |cols[j].cards|
    ensures forall j, k :: 0 <= j < |cols| && 0 <= k < |cols[j].cards| ==>
      r[j].cards[k].id == cols[j].cards[k].id
    ensures forall j, k :: 0 <= j < |cols| && 0 <= k < |cols[j].cards| && cols[j].cards[k].id != cardId ==>
      r[j].cards[k] == cols[j].cards[k]
    ensures forall j, k :: 0 <= j < |cols| && 0 <= k < |cols[j].cards| && cols[j].cards[k].id == cardId ==>
      r[j].cards[k] == Merge(cols[j].cards[k], p)
  {
    seq(|cols|, j requires 0 <= j < |cols| => cols[j].(cards := PatchCardList(cols[j].cards, cardId, p)))
  }

  /** `updateCard(cardId, patch)`, the store half: the current board's cards with that id are merged. */
  function UpdateCard(s: Snapshot, cardId: string, p: CardPatch): (r: Snapshot)
    ensures r.currentBoardId == s.currentBoardId && |r.boards| == |s.boards|
    ensures forall i :: 0 <= i < |s.boards| && s.boards[i].id != s.currentBoardId ==> r.boards[i] == s.boards[i]
    ensures CurrentColumns(r) == PatchCards(CurrentColumns(s), cardId, p)
    ensures r.boards == UpdateBoardColumns(s.boards, s.currentBoardId, PatchCards(CurrentColumns(s), cardId, p))
    ensures SameHeaders(s.boards, r.boards)
    ensures Valid(r) <==> Valid(s)
  {
    WithCurrentColumns(s, PatchCards(CurrentColumns(s), cardId, p))
  }

  lemma {:induction false} CountIdPatched(cards: seq<Card>, cardId: string, p: CardPatch, x: string)
    ensures CountId(PatchCardList(cards, cardId, p), x) == CountId(cards, x)
  {
    if cards != [] {
      assert PatchCardList(cards, cardId, p)[1..] == PatchCardList(cards[1..], cardId, p);
      CountIdPatched(cards[1..], cardId, p, x);
    }
  }

  lemma {:induction false} OccurrencesPatched(cols: seq<Column>, cardId: string, p: CardPatch, x: string)
    ensures Occurrences(PatchCards(cols, cardId, p), x) == Occurrences(cols, x)
    ensures TotalCards(PatchCards(cols, cardId, p)) == TotalCards(cols)
  {
    if cols != [] {
      assert PatchCards(cols, cardId, p)[1..] == PatchCards(cols[1..], cardId, p);
      CountIdPatched(cols[0].cards, cardId, p, x);
      OccurrencesPatched(cols[1..], cardId, p, x);
    }
  }

  /** An update keeps the number of cards and the count of every id, hence card-id uniqueness. */
  lemma UpdateCardKeepsCounts(s: Snapshot, cardId: string, p: CardPatch)
    requires FindBoard(s.boards, s.currentBoardId).Some?
    ensures TotalCards(CurrentColumns(UpdateCard(s, cardId, p))) == TotalCards(CurrentColumns(s))
    ensures forall x :: Occurrences(CurrentColumns(UpdateCard(s, cardId, p)), x) == Occurrences(CurrentColumns(s), x)
    ensures CardIdsUnique(CurrentColumns(s)) ==> CardIdsUnique(CurrentColumns(UpdateCard(s, cardId, p)))
  {
    forall x ensures Occurrences(CurrentColumns(UpdateCard(s, cardId, p)), x) == Occurrences(CurrentColumns(s), x) {
      OccurrencesPatched(CurrentColumns(s), cardId, p, x);
    }
    OccurrencesPatched(CurrentColumns(s), cardId, p, cardId);
  }

  /** An update of an id no card has leaves the snapshot as it was. */
  lemma UpdateCardUnknownId(s: Snapshot, cardId: string, p: CardPatch)
    requires Valid(s) && Occurrences(CurrentColumns(s), cardId) == 0
    ensures UpdateCard(s, cardId, p) == s
  {
    var cols := CurrentColumns(s);
    forall j | 0 <= j < |cols| ensures PatchCards(cols, cardId, p)[j] == cols[j] {
      CountIdAtMostOccurrences(cols, j, cardId);
      CountIdZero(cols[j].cards, cardId);
    }
    assert PatchCards(cols, cardId, p) == cols;
    WithCurrentColumnsUnchanged(s);
  }

  /** The patch that names what `second` names and otherwise what `first` names. */
  function Then(first: CardPatch, second: CardPatch): CardPatch {
    CardPatch(
      if second.title.Some? then second.title else first.title,
      if second.description.Some? then second.description else first.description,
      if second.assignee.Some? then second.assignee else first.assignee,
      if second.priority.Some? then second.priority else first.priority,
      if second.dueDate.Some? then second.dueDate else first.dueDate,
      if second.comments.Some? then second.comments else first.comments)
  }

  /** Writing the current columns twice keeps only the second write. */
  lemma WithCurrentColumnsTwice(s: Snapshot, c1: seq<Column>, c2: seq<Column>)
    ensures WithCurrentColumns(WithCurrentColumns(s, c1), c2) == WithCurrentColumns(s, c2)
  {
    var r2 := WithCurrentColumns(WithCurrentColumns(s, c1), c2);
    var r3 := WithCurrentColumns(s, c2);
    forall i | 0 <= i < |s.boards| ensures r2.boards[i] == r3.boards[i] {
    }
  }

  /** Merging with two patches in turn is merging with their combination. */
  lemma PatchCardListCompose(cards: seq<Card>, cardId: string, p1: CardPatch, p2: CardPatch)
    ensures PatchCardList(PatchCardList(cards, cardId, p1), cardId, p2) == PatchCardList(cards, cardId, Then(p1, p2))
  {
  }

  /** Two updates of the same card id are one update with the later fields winning. */
  lemma UpdateCardCompose(s: Snapshot, cardId: string, p1: CardPatch, p2: CardPatch)
    ensures UpdateCard(UpdateCard(s, cardId, p1), cardId, p2) == UpdateCard(s, cardId, Then(p1, p2))
  {
    if FindBoard(s.boards, s.currentBoardId).Some? {
      var cols := CurrentColumns(s);
      var once := PatchCards(cols, cardId, p1);
      var both := PatchCards(cols, cardId, Then(p1, p2));
      forall j | 0 <= j < |cols| ensures PatchCards(once, cardId, p2)[j] == both[j] {
        PatchCardListCompose(cols[j].cards, cardId, p1, p2);
      }
      assert PatchCards(once, cardId, p2) == both;
      WithCurrentColumnsTwice(s, once, both);
    } else {
      WithCurrentColumnsTwice(s, PatchCards(CurrentColumns(s), cardId, p1), PatchCards(CurrentColumns(s), cardId, Then(p1, p2)));
    }
  }

  /** Applying the same update twice is applying it once. */
  lemma UpdateCardIdempotent(s: Snapshot, cardId: string, p: CardPatch)
    ensures UpdateCard(UpdateCard(s, cardId, p), cardId, p) == UpdateCard(s, cardId, p)
  {
    UpdateCardCompose(s, cardId, p, p);
    assert Then(p, p) == p;
  }

  // ---------------------------------------------------------------------------
  // deleteCard

  /** The columns with the cards of that id filtered out of the one whose id is `columnId`. */
  function RemoveFromColumn(cols: seq<Column>, columnId: string, cardId: string): (r: seq<Column>)
    ensures |r| == |cols|
    ensures forall j :: 0 <= j < |cols| ==> r[j].id == cols[j].id && r[j].title == cols[j].title
    ensures forall j :: 0 <= j < |cols| && cols[j].id == columnId ==> r[j].cards == RemoveId(cols[j].cards, cardId)
    ensures forall j :: 0 <= j < |cols| && cols[j].id != columnId ==> r[j] == cols[j]
  {
    seq(|cols|, j requires 0 <= j < |cols| =>
      if cols[j].id == columnId then cols[j].(cards := RemoveId(cols[j].cards, cardId)) else cols[j])
  }

  /** `deleteCard(cardId, columnId)`. */
  function DeleteCard(s: Snapshot, cardId: string, columnId: string): (r: Snapshot)
    ensures r.currentBoardId == s.currentBoardId && |r.boards| == |s.boards|
    ensures forall i :: 0 <= i < |s.boards| && s.boards[i].id != s.currentBoardId ==> r.boards[i] == s.boards[i]
    ensures CurrentColumns(r) == RemoveFromColumn(CurrentColumns(s), columnId, cardId)
    ensures r.boards == UpdateBoardColumns(s.boards, s.currentBoardId, RemoveFromColumn(CurrentColumns(s), columnId, cardId))
    ensures SameHeaders(s.boards, r.boards)
    ensures Valid(r) <==> Valid(s)
  {
    WithCurrentColumns(s, RemoveFromColumn(CurrentColumns(s), columnId, cardId))
  }

  /**
   * Deleting from a column the board has once removes that column's cards of
   * the id and nothing else; with unique card ids the id is then gone from
   * the board and uniqueness is kept.
   */
  lemma DeleteCardCounts(s: Snapshot, cardId: string, columnId: string, j: nat)
    requires FindBoard(s.boards, s.currentBoardId).Some?
    requires DistinctColumnIds(CurrentColumns(s))
    requires j < |CurrentColumns(s)| && CurrentColumns(s)[j].id == columnId
    ensures TotalCards(CurrentColumns(DeleteCard(s, cardId, columnId))) ==
      TotalCards(CurrentColumns(s)) - CountId(CurrentColumns(s)[j].cards, cardId)
    ensures forall x :: (Occurrences(CurrentColumns(DeleteCard(s, cardId, columnId)), x) ==
      Occurrences(CurrentColumns(s), x) - (if x == cardId then CountId(CurrentColumns(s)[j].cards, cardId) else 0))
    ensures CardIdsUnique(CurrentColumns(s)) ==> CardIdsUnique(CurrentColumns(DeleteCard(s, cardId, columnId)))
    ensures CardIdsUnique(CurrentColumns(s)) && CountId(CurrentColumns(s)[j].cards, cardId) > 0 ==>
      Occurrences(CurrentColumns(DeleteCard(s, cardId, columnId)), cardId) == 0
  {
    var cols := CurrentColumns(s);
    var col := cols[j].(cards := RemoveId(cols[j].cards, cardId));
    var after := CurrentColumns(DeleteCard(s, cardId, columnId));
    assert after == cols[j := col];
    TotalCardsUpdate(cols, j, col);
    forall x ensures Occurrences(after, x) ==
      Occurrences(cols, x) - (if x == cardId then CountId(cols[j].cards, cardId) else 0)
    {
      OccurrencesUpdate(cols, j, col, x);
    }
    CountIdAtMostOccurrences(cols, j, cardId);
    assert Occurrences(after, cardId) <= Occurrences(cols, cardId);
  }

  // ---------------------------------------------------------------------------
  // moving a card (the store half of handleDrop)

  /** The columns after a drop: source filtered, `card` appended to the target, the rest as they were. */
  function MoveBetween(cols: seq<Column>, card: Card, sourceId: string, targetId: string): (r: seq<Column>)
    ensures |r| == |cols|
    ensures forall j :: 0 <= j < |cols| ==> r[j].id == cols[j].id && r[j].title == cols[j].title
    ensures forall j :: 0 <= j < |cols| && cols[j].id == sourceId ==> r[j].cards == RemoveId(cols[j].cards, card.id)
    ensures forall j :: 0 <= j < |cols| && cols[j].id == targetId && targetId != sourceId ==>
      r[j].cards == cols[j].cards + [card]
    ensures forall j :: 0 <= j < |cols| && cols[j].id != sourceId && cols[j].id != targetId ==> r[j] == cols[j]
  {
    seq(|cols|, j requires 0 <= j < |cols| =>
      if cols[j].id == sourceId then cols[j].(cards := RemoveId(cols[j].cards, card.id))
      else if cols[j].id == targetId then cols[j].(cards := cols[j].cards + [card])
      else cols[j])
  }

  /** The snapshot the drop hands to `updateBoardColumns`. */
  function MoveCard(s: Snapshot, card: Card, sourceId: string, targetId: string): (r: Snapshot)
    ensures r.currentBoardId == s.currentBoardId && |r.boards| == |s.boards|
    ensures forall i :: 0 <= i < |s.boards| && s.boards[i].id != s.currentBoardId ==> r.boards[i] == s.boards[i]
    ensures CurrentColumns(r) == MoveBetween(CurrentColumns(s), card, sourceId, targetId)
    ensures r.boards == UpdateBoardColumns(s.boards, s.currentBoardId, MoveBetween(CurrentColumns(s), card, sourceId, targetId))
    ensures SameHeaders(s.boards, r.boards)
    ensures Valid(r) <==> Valid(s)
  {
    WithCurrentColumns(s, MoveBetween(CurrentColumns(s), card, sourceId, targetId))
  }

  /** With distinct column ids the move rewrites exactly the source and the target column. */
  lemma MoveBetweenAt(cols: seq<Column>, card: Card, sourceId: string, targetId: string, js: nat, jt: nat)
    requires DistinctColumnIds(cols) && sourceId != targetId
    requires js < |cols| && cols[js].id == sourceId && jt < |cols| && cols[jt].id == targetId
    ensures MoveBetween(cols, card, sourceId, targetId) ==
      cols[js := cols[js].(cards := RemoveId(cols[js].cards, card.id))][jt := cols[jt].(cards := cols[jt].cards + [card])]
  {
  }

  /**
   * A card held once by the source column moves without being lost or
   * duplicated: the board's card total and the count of every id are kept,
   * so card-id uniqueness is kept, and the card is now in the target column only.
   */
  lemma MovePreservesCards(cols: seq<Column>, card: Card, sourceId: string, targetId: string, js: nat, jt: nat)
    requires DistinctColumnIds(cols) && sourceId != targetId
    requires js < |cols| && cols[js].id == sourceId && jt < |cols| && cols[jt].id == targetId
    requires CountId(cols[js].cards, card.id) == 1
    ensures TotalCards(MoveBetween(cols, card, sourceId, targetId)) == TotalCards(cols)
    ensures forall x :: Occurrences(MoveBetween(cols, card, sourceId, targetId), x) == Occurrences(cols, x)
    ensures CardIdsUnique(cols) ==> CardIdsUnique(MoveBetween(cols, card, sourceId, targetId))
    ensures CountId(MoveBetween(cols, card, sourceId, targetId)[js].cards, card.id) == 0
    ensures CountId(MoveBetween(cols, card, sourceId, targetId)[jt].cards, card.id) == CountId(cols[jt].cards, card.id) + 1
  {
    var src := cols[js].(cards := RemoveId(cols[js].cards, card.id));
    var mid := cols[js := src];
    var tgt := cols[jt].(cards := cols[jt].cards + [card]);
    MoveBetweenAt(cols, card, sourceId, targetId, js, jt);
    TotalCardsUpdate(cols, js, src);
    TotalCardsUpdate(mid, jt, tgt);
    forall x ensures Occurrences(MoveBetween(cols, card, sourceId, targetId), x) == Occurrences(cols, x) {
      MoveOccurrences(cols, card, js, jt, x);
    }
    CountIdAppend(cols[jt].cards, card, card.id);
  }

  /** How a move by index changes the count of one id. */
  lemma MoveOccurrences(cols: seq<Column>, card: Card, js: nat, jt: nat, x: string)
    requires js < |cols| && jt < |cols| && js != jt
    ensures Occurrences(cols[js := cols[js].(cards := RemoveId(cols[js].cards, card.id))]
                            [jt := cols[jt].(cards := cols[jt].cards + [card])], x) ==
      Occurrences(cols, x) - (if x == card.id then CountId(cols[js].cards, x) - 1 else 0)
  {
    var src := cols[js].(cards := RemoveId(cols[js].cards, card.id));
    var mid := cols[js := src];
    var tgt := cols[jt].(cards := cols[jt].cards + [card]);
    OccurrencesUpdate(cols, js, src, x);
    OccurrencesUpdate(mid, jt, tgt, x);
    CountIdAppend(cols[jt].cards, card, x);
  }

  /**
   * The drop does not check that the source still holds the card: when it no
   * longer does, the drop adds a copy, so the card total grows by one and the
   * card's id is held once more than before.
   */
  lemma StaleMoveDuplicates(cols: seq<Column>, card: Card, sourceId: string, targetId: string, js: nat, jt: nat)
    requires DistinctColumnIds(cols) && sourceId != targetId
    requires js < |cols| && cols[js].id == sourceId && jt < |cols| && cols[jt].id == targetId
    requires CountId(cols[js].cards, card.id) == 0
    ensures TotalCards(MoveBetween(cols, card, sourceId, targetId)) == TotalCards(cols) + 1
    ensures Occurrences(MoveBetween(cols, card, sourceId, targetId), card.id) == Occurrences(cols, card.id) + 1
  {
    var src := cols[js].(cards := RemoveId(cols[js].cards, card.id));
    var mid := cols[js := src];
    var tgt := cols[jt].(cards := cols[jt].cards + [card]);
    MoveBetweenAt(cols, card, sourceId, targetId, js, jt);
    TotalCardsUpdate(cols, js, src);
    TotalCardsUpdate(mid, jt, tgt);
    MoveOccurrences(cols, card, js, jt, card.id);
  }

  // ---------------------------------------------------------------------------
  // createBoard and the create-board form

  /** The four empty columns every new board gets. */
  function DefaultColumns(): seq<Column> {
    [Column("1", "To Do", []), Column("2", "In Progress", []), Column("3", "Review", []), Column("4", "Done", [])]
  }

  /** `boards.find(b => b.name.toLowerCase() === name.toLowerCase())` found something. */
  function HasNameIgnoringCase(boards: seq<Board>, name: string): (b: bool)
    ensures b <==> exists i :: 0 <= i < |boards| && SameNameIgnoringCase(boards[i].name, name)
  {
    if boards == [] then false
    else SameNameIgnoringCase(boards[0].name, name) || HasNameIgnoringCase(boards[1..], name)
  }

  /**
   * `createBoard({name, description})` with `newId` for the generated id:
   * refused, with the snapshot unchanged, when a board already has the name
   * up to case; otherwise one board with the default columns is appended and
   * made current.
   */
  function CreateBoard(s: Snapshot, name: string, description: string, newId: string): (r: (Snapshot, bool))
    ensures !r.1 <==> exists i :: 0 <= i < |s.boards| && SameNameIgnoringCase(s.boards[i].name, name)
    ensures !r.1 ==> r.0 == s
    ensures r.1 ==> r.0.boards == s.boards + [Board(newId, name, description, DefaultColumns())]
    ensures r.1 ==> r.0.currentBoardId == newId && FindBoard(r.0.boards, newId).Some?
    ensures r.1 && FindBoard(s.boards, newId).None? ==> CurrentColumns(r.0) == DefaultColumns()
    ensures r.1 && Valid(s) && FindBoard(s.boards, newId).None? ==> Valid(r.0)
  {
    if HasNameIgnoringCase(s.boards, name) then (s, false)
    else
      var boards := s.boards + [Board(newId, name, description, DefaultColumns())];
      assert boards[|s.boards|].id == newId;
      (Snapshot(boards, newId), true)
  }

  /** The form's submit: a blank name is refused before the store is asked; name and description are trimmed. */
  function SubmitCreateBoard(s: Snapshot, boardName: string, boardDescription: string, newId: string): (r: (Snapshot, bool))
    ensures IsBlank(boardName) ==> r == (s, false)
    ensures !IsBlank(boardName) ==> r == CreateBoard(s, Trim(boardName), Trim(boardDescription), newId)
    ensures r.1 ==> !IsBlank(r.0.boards[|r.0.boards| - 1].name) && |r.0.boards| == |s.boards| + 1
  {
    if Trim(boardName) == [] then (s, false)
    else
      TrimmedNotBlank(boardName);
      CreateBoard(s, Trim(boardName), Trim(boardDescription), newId)
  }

  /** Once a name is on the board list, creating it again in another case is refused. */
  lemma DuplicateNameRejected(s: Snapshot, a: string, b: string, da: string, db: string, idA: string, idB: string)
    requires SameNameIgnoringCase(a, b)
    ensures var (s1, ok1) := CreateBoard(s, a, da, idA);
      && (ok1 ==> |s1.boards| == |s.boards| + 1)
      && CreateBoard(s1, b, db, idB) == (s1, false)
  {
    var (s1, ok1) := CreateBoard(s, a, da, idA);
    if ok1 {
      assert SameNameIgnoringCase(s1.boards[|s.boards|].name, b);
    } else {
      var i :| 0 <= i < |s.boards| && SameNameIgnoringCase(s.boards[i].name, a);
      assert SameNameIgnoringCase(s1.boards[i].name, b);
    }
  }

  /** "Alpha" and "alpha" are the same board name. */
  lemma AlphaIsAlpha()
    ensures SameNameIgnoringCase("Alpha", "alpha")
  {
    assert ToLower("Alpha") == "alpha";
  }

  // ---------------------------------------------------------------------------
  // switchBoard

  /** `switchBoard(boardId)`: the source reads the board's name afterwards, so the id must exist. */
  function SwitchBoard(s: Snapshot, boardId: string): (r: Snapshot)
    requires exists i :: 0 <= i < |s.boards| && s.boards[i].id == boardId
    ensures r.boards == s.boards && r.currentBoardId == boardId
    ensures CurrentColumns(r) == s.boards[FindBoard(s.boards, boardId).value].columns
    ensures Valid(s) ==> Valid(r)
  {
    s.(currentBoardId := boardId)
  }

  // ---------------------------------------------------------------------------
  // deleteBoard

  /** Number of boards with the id. */
  function CountBoard(boards: seq<Board>, id: string): (n: nat)
    ensures n <= |boards|
  {
    if boards == [] then 0 else (if boards[0].id == id then 1 else 0) + CountBoard(boards[1..], id)
  }

  /** `boards.filter(b => b.id !== id)`. */
  function RemoveBoard(boards: seq<Board>, id: string): (r: seq<Board>)
    ensures |r| == |boards| - CountBoard(boards, id)
    ensures forall b :: b in r <==> b in boards && b.id != id
  {
    if boards == [] then []
    else if boards[0].id == id then RemoveBoard(boards[1..], id)
    else
      assert forall b :: b in boards <==> b == boards[0] || b in boards[1..] by {
        assert boards == [boards[0]] + boards[1..];
      }
      [boards[0]] + RemoveBoard(boards[1..], id)
  }

  /** With distinct board ids the filter cuts out exactly the one board with the id, keeping the order of the rest. */
  lemma {:induction false} RemoveBoardAt(boards: seq<Board>, id: string, k: nat)
    requires DistinctBoardIds(boards)
    requires k < |boards| && boards[k].id == id
    ensures RemoveBoard(boards, id) == boards[..k] + boards[k + 1..]
  {
    var rest := boards[1..];
    if k == 0 {
      forall i | 0 <= i < |rest| ensures rest[i].id != id {
        assert rest[i] == boards[i + 1];
      }
      RemoveBoardAbsent(rest, id);
    } else {
      assert boards[0].id != id;
      assert RemoveBoard(boards, id) == [boards[0]] + RemoveBoard(rest, id);
      forall i, j | 0 <= i < j < |rest| ensures rest[i].id != rest[j].id {
        assert rest[i] == boards[i + 1] && rest[j] == boards[j + 1];
      }
      RemoveBoardAt(rest, id, k - 1);
      assert rest[..k - 1] == boards[1..k] && rest[k..] == boards[k + 1..];
      assert [boards[0]] + boards[1..k] == boards[..k];
    }
  }

  /** Filtering out an id no board has keeps the list as it is. */
  lemma {:induction false} RemoveBoardAbsent(boards: seq<Board>, id: string)
    requires forall i :: 0 <= i < |boards| ==> boards[i].id != id
    ensures RemoveBoard(boards, id) == boards
  {
    if boards != [] {
      assert forall i :: 0 <= i < |boards[1..]| ==> boards[1..][i] == boards[i + 1];
      RemoveBoardAbsent(boards[1..], id);
      assert boards == [boards[0]] + boards[1..];
    }
  }

  /** `boards.find(b => b.id !== id)`, as an index. */
  function FirstOtherBoard(boards: seq<Board>, id: string): (k: nat)
    requires exists i :: 0 <= i < |boards| && boards[i].id != id
    ensures k < |boards| && boards[k].id != id
    ensures forall i :: 0 <= i < k ==> boards[i].id == id
  {
    if boards[0].id != id then 0
    else
      assert exists i :: 0 <= i < |boards[1..]| && boards[1..][i].id != id by {
        var i :| 0 <= i < |boards| && boards[i].id != id;
        assert boards[1..][i - 1] == boards[i];
      }
      1 + FirstOtherBoard(boards[1..], id)
  }

  /** What `deleteBoard` needs to run without dereferencing a missing board. */
  predicate CanDeleteBoard(s: Snapshot, boardId: string) {
    && (exists i :: 0 <= i < |s.boards| && s.boards[i].id == boardId)
    && (s.currentBoardId == boardId ==> exists i :: 0 <= i < |s.boards| && s.boards[i].id != boardId)
  }

  /**
   * `deleteBoard(boardId)` with the answer of the confirmation prompt: the
   * last board is never deleted; otherwise every board with the id is
   * removed, and if it was current the first board with another id becomes
   * current.
   */
  function DeleteBoard(s: Snapshot, boardId: string, confirmed: bool): (r: Snapshot)
    requires |s.boards| > 1 && confirmed ==> CanDeleteBoard(s, boardId)
    ensures |s.boards| <= 1 || !confirmed ==> r == s
    ensures |s.boards| > 1 && confirmed ==>
      && r.boards == RemoveBoard(s.boards, boardId)
      && (s.currentBoardId != boardId ==> r.currentBoardId == s.currentBoardId)
      && (s.currentBoardId == boardId ==> r.currentBoardId == s.boards[FirstOtherBoard(s.boards, boardId)].id)
  {
    if |s.boards| <= 1 || !confirmed then s
    else
      var current := if s.currentBoardId == boardId then s.boards[FirstOtherBoard(s.boards, boardId)].id
                     else s.currentBoardId;
      Snapshot(RemoveBoard(s.boards, boardId), current)
  }

  lemma {:induction false} RemoveBoardDistinct(boards: seq<Board>, id: string)
    requires DistinctBoardIds(boards)
    ensures DistinctBoardIds(RemoveBoard(boards, id))
  {
    if boards != [] {
      RemoveBoardDistinct(boards[1..], id);
      if boards[0].id != id {
        var rest := RemoveBoard(boards[1..], id);
        forall b | b in rest ensures b.id != boards[0].id {
          var k :| 1 <= k < |boards| && boards[k] == b;
        }
      }
    }
  }

  /**
   * From a valid snapshot with at least two boards, a confirmed deletion of a
   * board that exists removes exactly one board and leaves `currentBoardId`
   * naming a remaining board.
   */
  lemma DeleteBoardValid(s: Snapshot, boardId: string)
    requires Valid(s) && |s.boards| > 1
    requires exists i :: 0 <= i < |s.boards| && s.boards[i].id == boardId
    ensures CanDeleteBoard(s, boardId)
    ensures |DeleteBoard(s, boardId, true).boards| == |s.boards| - 1
    ensures Valid(DeleteBoard(s, boardId, true))
  {
    var i :| 0 <= i < |s.boards| && s.boards[i].id == boardId;
    var other := if i == 0 then 1 else 0;
    assert s.boards[other].id != boardId;
    CountBoardDistinct(s.boards, boardId, i);
    var r := DeleteBoard(s, boardId, true);
    RemoveBoardDistinct(s.boards, boardId);
    var c := FindBoard(s.boards, s.currentBoardId).value;
    var keep := if s.currentBoardId == boardId then FirstOtherBoard(s.boards, boardId) else c;
    assert s.boards[keep] in r.boards;
    assert s.boards[keep].id == r.currentBoardId;
  }

  lemma {:induction false} CountBoardDistinct(boards: seq<Board>, id: string, i: nat)
    requires DistinctBoardIds(boards) && i < |boards| && boards[i].id == id
    ensures CountBoard(boards, id) == 1
  {
    if i == 0 {
      CountBoardAbsent(boards[1..], id);
    } else {
      CountBoardDistinct(boards[1..], id, i - 1);
    }
  }

  lemma {:induction false} CountBoardAbsent(boards: seq<Board>, id: string)
    requires forall k :: 0 <= k < |boards| ==> boards[k].id != id
    ensures CountBoard(boards, id) == 0
  {
    if boards != [] {
      CountBoardAbsent(boards[1..], id);
    }
  }
}
