/**
 * The board data model of the kanban component: boards hold an ordered list
 * of columns, columns an ordered list of cards, cards an optional list of
 * comments. All values are immutable; every store operation builds a new
 * snapshot.
 */
module Kanban {
  import opened Wrappers

  datatype Priority = Low | Medium | High

  /** `timestamp` stands for the `Date` taken when the comment was written. */
  datatype Comment = Comment(id: string, text: string, author: string, timestamp: int)

  /**
   * A card. `dueDate` is `None` for both an absent field and `null`;
   * `comments` is `None` for a card that never had the field (a card made by
   * the add-card form has none until the detail panel gives it one).
   */
  datatype Card = Card(
    id: string,
    title: string,
    description: string,
    assignee: string,
    priority: Priority,
    dueDate: Option<string>,
    comments: Option<seq<Comment>>)

  datatype Column = Column(id: string, title: string, cards: seq<Card>)

  datatype Board = Board(id: string, name: string, description: string, columns: seq<Column>)

  /** The component's store state: the `boards` list and `currentBoardId`. */
  datatype Snapshot = Snapshot(boards: seq<Board>, currentBoardId: string)

  /** `boards.find(b => b.id === id)`, as the index of the first match. */
  function FindBoard(boards: seq<Board>, id: string): (r: Option<nat>)
    ensures r.Some? ==> r.value < |boards| && boards[r.value].id == id
    ensures r.Some? ==> forall i :: 0 <= i < r.value ==> boards[i].id != id
    ensures r.None? <==> forall i :: 0 <= i < |boards| ==> boards[i].id != id
  {
    if |boards| == 0 then None
    else if boards[0].id == id then Some(0)
    else match FindBoard(boards[1..], id)
      case None => None
      case Some(k) => Some(k + 1)
  }

  /** Two board lists with the same ids position by position resolve an id alike. */
  lemma FindBoardSameIds(a: seq<Board>, b: seq<Board>, id: string)
    requires |a| == |b| && forall i :: 0 <= i < |a| ==> a[i].id == b[i].id
    ensures FindBoard(a, id) == FindBoard(b, id)
  {
  }

  /** `currentColumns`: the columns of the board `currentBoardId` resolves to, or none. */
  function CurrentColumns(s: Snapshot): (r: seq<Column>)
    ensures (forall i :: 0 <= i < |s.boards| ==> s.boards[i].id != s.currentBoardId) ==> r == []
    ensures forall i :: (0 <= i < |s.boards| && s.boards[i].id == s.currentBoardId &&
      (forall k :: 0 <= k < i ==> s.boards[k].id != s.currentBoardId)) ==> r == s.boards[i].columns
    ensures DistinctBoardIds(s.boards) ==>
      forall i :: 0 <= i < |s.boards| && s.boards[i].id == s.currentBoardId ==> r == s.boards[i].columns
  {
    match FindBoard(s.boards, s.currentBoardId)
    case None => []
    case Some(i) => s.boards[i].columns
  }

  /** Every board id occurs once. */
  predicate DistinctBoardIds(boards: seq<Board>) {
    forall i, j :: 0 <= i < j < |boards| ==> boards[i].id != boards[j].id
  }

  /** Every column id of a board occurs once. */
  predicate DistinctColumnIds(cols: seq<Column>) {
    forall i, j :: 0 <= i < j < |cols| ==> cols[i].id != cols[j].id
  }

  /** Number of cards in a list that carry the id. */
  function CountId(cards: seq<Card>, id: string): (n: nat)
    ensures n <= |cards|
  {
    if cards == [] then 0
    else (if cards[0].id == id then 1 else 0) + CountId(cards[1..], id)
  }

  /** The count is zero exactly when no card of the list has the id. */
  lemma {:induction false} CountIdZero(cards: seq<Card>, id: string)
    ensures CountId(cards, id) == 0 <==> forall k :: 0 <= k < |cards| ==> cards[k].id != id
  {
    if cards != [] {
      CountIdZero(cards[1..], id);
      assert forall k :: 1 <= k < |cards| ==> cards[k] == cards[1..][k - 1];
    }
  }

  lemma {:induction false} CountIdAppend(cards: seq<Card>, c: Card, id: string)
    ensures CountId(cards + [c], id) == CountId(cards, id) + (if c.id == id then 1 else 0)
  {
    if cards != [] {
      assert (cards + [c])[1..] == cards[1..] + [c];
      CountIdAppend(cards[1..], c, id);
    }
  }

  /** `cards.filter(c => c.id !== id)`. */
  function RemoveId(cards: seq<Card>, id: string): (r: seq<Card>)
    ensures |r| == |cards| - CountId(cards, id)
    ensures forall c :: c in r <==> c in cards && c.id != id
    ensures forall x {:trigger CountId(r, x)} :: CountId(r, x) == if x == id then 0 else CountId(cards, x)
  {
    if cards == [] then []
    else if cards[0].id == id then RemoveId(cards[1..], id)
    else
      var rest := RemoveId(cards[1..], id);
      assert forall x :: CountId([cards[0]] + rest, x) == (if cards[0].id == x then 1 else 0) + CountId(rest, x) by {
        forall x ensures CountId([cards[0]] + rest, x) == (if cards[0].id == x then 1 else 0) + CountId(rest, x) {
          assert ([cards[0]] + rest)[1..] == rest;
        }
      }
      assert forall c :: c in cards <==> c == cards[0] || c in cards[1..] by {
        assert cards == [cards[0]] + cards[1..];
      }
      [cards[0]] + rest
  }

  /** Number of cards on a board: the sum of the column counts shown in the stats row. */
  function TotalCards(cols: seq<Column>): nat {
    if cols == [] then 0 else |cols[0].cards| + TotalCards(cols[1..])
  }

  /** Number of cards with the id across all columns of a board. */
  function Occurrences(cols: seq<Column>, id: string): nat {
    if cols == [] then 0 else CountId(cols[0].cards, id) + Occurrences(cols[1..], id)
  }

  /** Replacing one column changes the card total by the difference of that column's sizes. */
  lemma {:induction false} TotalCardsUpdate(cols: seq<Column>, j: nat, col: Column)
    requires j < |cols|
    ensures TotalCards(cols[j := col]) == TotalCards(cols) - |cols[j].cards| + |col.cards|
  {
    if j == 0 {
      assert cols[j := col][1..] == cols[1..];
    } else {
      assert cols[j := col][1..] == cols[1..][j - 1 := col];
      TotalCardsUpdate(cols[1..], j - 1, col);
    }
  }

  /** Replacing one column changes the count of an id by the difference of that column's counts. */
  lemma {:induction false} OccurrencesUpdate(cols: seq<Column>, j: nat, col: Column, id: string)
    requires j < |cols|
    ensures Occurrences(cols[j := col], id) == Occurrences(cols, id) - CountId(cols[j].cards, id) + CountId(col.cards, id)
  {
    if j == 0 {
      assert cols[j := col][1..] == cols[1..];
    } else {
      assert cols[j := col][1..] == cols[1..][j - 1 := col];
      OccurrencesUpdate(cols[1..], j - 1, col, id);
    }
  }

  /** A column's own count of an id never exceeds the board's. */
  lemma {:induction false} CountIdAtMostOccurrences(cols: seq<Column>, j: nat, id: string)
    requires j < |cols|
    ensures CountId(cols[j].cards, id) <= Occurrences(cols, id)
  {
    if j > 0 {
      CountIdAtMostOccurrences(cols[1..], j - 1, id);
    }
  }

  /** Invariant of the model: a card id is held by at most one card of the board. */
  ghost predicate CardIdsUnique(cols: seq<Column>) {
    forall x {:trigger Occurrences(cols, x)} :: Occurrences(cols, x) <= 1
  }
}
