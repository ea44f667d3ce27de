/**
 * The card detail panel: it keeps its own copy of the opened card
 * (`selectedCard`) and every edit goes through `updateCard`, which rewrites
 * the store and merges the same fields into that copy.
 */
module CardDetail {
  import opened Wrappers
  import opened Text
  import opened Kanban
  import opened BoardStore

  /** The store snapshot together with the panel's copy of the open card. */
  datatype Detail = Detail(snapshot: Snapshot, selected: Card)

  /** The panel's copy agrees with every card of the current board that has its id. */
  predicate InSync(d: Detail) {
    var cols := CurrentColumns(d.snapshot);
    forall j, k :: 0 <= j < |cols| && 0 <= k < |cols[j].cards| && cols[j].cards[k].id == d.selected.id ==>
      cols[j].cards[k] == d.selected
  }

  /** `openCardDetail(card)`: the copy is the card, with an empty comment list when it has none. */
  function OpenCardDetail(s: Snapshot, card: Card): (d: Detail)
    ensures d.snapshot == s && d.selected.id == card.id
    ensures d.selected.comments == Some(card.comments.GetOr([]))
    ensures d.selected.(comments := card.comments) == card
    ensures card.comments.Some? ==> d.selected == card
  {
    Detail(s, card.(comments := Some(card.comments.GetOr([]))))
  }

  /** Opening a card that the board holds once, and that already has comments, starts in sync. */
  lemma OpenCardDetailInSync(s: Snapshot, j: nat, k: nat)
    requires CardIdsUnique(CurrentColumns(s))
    requires j < |CurrentColumns(s)| && k < |CurrentColumns(s)[j].cards|
    requires CurrentColumns(s)[j].cards[k].comments.Some?
    ensures InSync(OpenCardDetail(s, CurrentColumns(s)[j].cards[k]))
  {
    var cols := CurrentColumns(s);
    var card := cols[j].cards[k];
    forall j', k' | 0 <= j' < |cols| && 0 <= k' < |cols[j'].cards| && cols[j'].cards[k'].id == card.id
      ensures cols[j'].cards[k'] == card
    {
      if (j', k') != (j, k) {
        TwoHoldersCount(cols, j, k, j', k', card.id);
      }
    }
  }

  /** Two different positions holding the id make its count at least two. */
  lemma {:induction false} TwoHoldersCount(cols: seq<Column>, j: nat, k: nat, j': nat, k': nat, id: string)
    requires j < |cols| && k < |cols[j].cards| && j' < |cols| && k' < |cols[j'].cards| && (j, k) != (j', k')
    requires cols[j].cards[k].id == id && cols[j'].cards[k'].id == id
    ensures Occurrences(cols, id) >= 2
  {
    if j == j' {
      TwoInList(cols[j].cards, k, k', id);
      CountIdAtMostOccurrences(cols, j, id);
    } else {
      var lo, hi := if j < j' then j else j', if j < j' then j' else j;
      assert lo < hi < |cols|;
      OneHolderCount(cols[lo].cards, if j < j' then k else k', id);
      OneHolderCount(cols[hi].cards, if j < j' then k' else k, id);
      TwoColumnsCount(cols, lo, hi, id);
    }
  }

  lemma {:induction false} OneHolderCount(cards: seq<Card>, k: nat, id: string)
    requires k < |cards| && cards[k].id == id
    ensures CountId(cards, id) >= 1
  {
    CountIdZero(cards, id);
  }

  lemma {:induction false} TwoInList(cards: seq<Card>, k: nat, k': nat, id: string)
    requires k < |cards| && k' < |cards| && k != k' && cards[k].id == id && cards[k'].id == id
    ensures CountId(cards, id) >= 2
  {
    if k == 0 {
      OneHolderCount(cards[1..], k' - 1, id);
    } else if k' == 0 {
      OneHolderCount(cards[1..], k - 1, id);
    } else {
      TwoInList(cards[1..], k - 1, k' - 1, id);
    }
  }

  lemma {:induction false} TwoColumnsCount(cols: seq<Column>, lo: nat, hi: nat, id: string)
    requires lo < hi < |cols|
    ensures Occurrences(cols, id) >= CountId(cols[lo].cards, id) + CountId(cols[hi].cards, id)
  {
    assert Occurrences(cols, id) == CountId(cols[0].cards, id) + Occurrences(cols[1..], id);
    if lo == 0 {
      CountIdAtMostOccurrences(cols[1..], hi - 1, id);
      assert cols[1..][hi - 1] == cols[hi];
    } else {
      TwoColumnsCount(cols[1..], lo - 1, hi - 1, id);
      assert cols[1..][lo - 1] == cols[lo] && cols[1..][hi - 1] == cols[hi];
    }
  }

  /**
   * `updateCard(cardId, patch)` as the panel calls it: the store is updated
   * and the patch is merged into the panel's copy whether or not the store
   * had a card with that id.
   */
  function UpdateFromPanel(d: Detail, cardId: string, p: CardPatch): (r: Detail)
    ensures r.snapshot == UpdateCard(d.snapshot, cardId, p)
    ensures r.selected == Merge(d.selected, p)
    ensures r.selected.id == d.selected.id
    ensures Valid(r.snapshot) <==> Valid(d.snapshot)
  {
    Detail(UpdateCard(d.snapshot, cardId, p), Merge(d.selected, p))
  }

  /** Editing the open card keeps the panel and the store in sync. */
  lemma UpdateFromPanelInSync(d: Detail, p: CardPatch)
    requires InSync(d)
    ensures InSync(UpdateFromPanel(d, d.selected.id, p))
  {
  }

  /**
   * When the store has no card with the id, the store is left as it was but
   * the panel's copy still takes the patch, so the two disagree.
   */
  lemma UnknownIdChangesOnlyPanel(d: Detail, cardId: string, p: CardPatch)
    requires Valid(d.snapshot) && Occurrences(CurrentColumns(d.snapshot), cardId) == 0
    requires p.title.Some? && p.title.value != d.selected.title
    ensures UpdateFromPanel(d, cardId, p).snapshot == d.snapshot
    ensures UpdateFromPanel(d, cardId, p).selected != d.selected
  {
    UpdateCardUnknownId(d.snapshot, cardId, p);
  }

  function TitlePatch(t: string): CardPatch { CardPatch(Some(t), None, None, None, None, None) }
  function DescriptionPatch(t: string): CardPatch { CardPatch(None, Some(t), None, None, None, None) }
  function AssigneePatch(t: string): CardPatch { CardPatch(None, None, Some(t), None, None, None) }
  function PriorityPatch(q: Priority): CardPatch { CardPatch(None, None, None, Some(q), None, None) }
  function DueDatePatch(date: Option<string>): CardPatch { CardPatch(None, None, None, None, Some(date), None) }
  function CommentsPatch(cs: seq<Comment>): CardPatch { CardPatch(None, None, None, None, None, Some(cs)) }

  /** `saveTitle`: a blank title is not saved; otherwise the trimmed title is. */
  function SaveTitle(d: Detail, tempTitle: string): (r: Detail)
    ensures IsBlank(tempTitle) ==> r == d
    ensures !IsBlank(tempTitle) ==> r == UpdateFromPanel(d, d.selected.id, TitlePatch(Trim(tempTitle)))
    ensures !IsBlank(tempTitle) ==> r.selected.title == Trim(tempTitle) && !IsBlank(r.selected.title)
  {
    if Trim(tempTitle) == [] then d
    else
      TrimmedNotBlank(tempTitle);
      UpdateFromPanel(d, d.selected.id, TitlePatch(Trim(tempTitle)))
  }

  /** `saveDescription`: the trimmed description is saved, blank or not. */
  function SaveDescription(d: Detail, tempDescription: string): (r: Detail)
    ensures r == UpdateFromPanel(d, d.selected.id, DescriptionPatch(Trim(tempDescription)))
    ensures r.selected.description == Trim(tempDescription)
  {
    UpdateFromPanel(d, d.selected.id, DescriptionPatch(Trim(tempDescription)))
  }

  /** `saveAssignee`: the trimmed name, or "Unassigned" when that is empty; never blank. */
  function SaveAssignee(d: Detail, tempAssignee: string): (r: Detail)
    ensures r.selected.assignee == if IsBlank(tempAssignee) then "Unassigned" else Trim(tempAssignee)
    ensures !IsBlank(r.selected.assignee)
    ensures r.snapshot == UpdateCard(d.snapshot, d.selected.id, AssigneePatch(r.selected.assignee))
    ensures r == UpdateFromPanel(d, d.selected.id, AssigneePatch(r.selected.assignee))
  {
    if Trim(tempAssignee) == [] then
      assert !IsWhitespace("Unassigned"[0]);
      UpdateFromPanel(d, d.selected.id, AssigneePatch("Unassigned"))
    else
      TrimmedNotBlank(tempAssignee);
      UpdateFromPanel(d, d.selected.id, AssigneePatch(Trim(tempAssignee)))
  }

  /** `savePriority` with the chosen priority. */
  function SavePriority(d: Detail, q: Priority): (r: Detail)
    ensures r == UpdateFromPanel(d, d.selected.id, PriorityPatch(q))
    ensures r.selected.priority == q
  {
    UpdateFromPanel(d, d.selected.id, PriorityPatch(q))
  }

  /** The due-date input, the calendar's date choice (a date) and the clear button (`None`). */
  function SetDueDate(d: Detail, date: Option<string>): (r: Detail)
    ensures r == UpdateFromPanel(d, d.selected.id, DueDatePatch(date))
    ensures r.selected.dueDate == date
  {
    UpdateFromPanel(d, d.selected.id, DueDatePatch(date))
  }

  /** The comment author the panel writes. */
  const CurrentUser := "Current User"

  /**
   * `addComment` with `newId` and `timestamp` for the generated id and the
   * clock: a blank text adds nothing; otherwise the trimmed text is appended
   * after the copy's comments and saved to the store.
   */
  function AddComment(d: Detail, text: string, newId: string, timestamp: int): (r: Detail)
    ensures IsBlank(text) ==> r == d
    ensures !IsBlank(text) ==>
      var cs := d.selected.comments.GetOr([]) + [Comment(newId, Trim(text), CurrentUser, timestamp)];
      && r.selected == d.selected.(comments := Some(cs))
      && r.snapshot == UpdateCard(d.snapshot, d.selected.id, CommentsPatch(cs))
  {
    if Trim(text) == [] then d
    else
      var cs := d.selected.comments.GetOr([]) + [Comment(newId, Trim(text), CurrentUser, timestamp)];
      UpdateFromPanel(d, d.selected.id, CommentsPatch(cs))
  }

  /** `comments.filter(c => c.id !== commentId)`. */
  function RemoveComment(cs: seq<Comment>, commentId: string): (r: seq<Comment>)
    ensures forall c :: c in r <==> c in cs && c.id != commentId
  {
    if cs == [] then []
    else if cs[0].id == commentId then RemoveComment(cs[1..], commentId)
    else
      assert forall c :: c in cs <==> c == cs[0] || c in cs[1..] by {
        assert cs == [cs[0]] + cs[1..];
      }
      [cs[0]] + RemoveComment(cs[1..], commentId)
  }

  /** `deleteComment(commentId)`: the copy's list is read directly, so it must exist. */
  function DeleteComment(d: Detail, commentId: string): (r: Detail)
    requires d.selected.comments.Some?
    ensures r.selected == d.selected.(comments := Some(RemoveComment(d.selected.comments.value, commentId)))
    ensures r.snapshot == UpdateCard(d.snapshot, d.selected.id, CommentsPatch(RemoveComment(d.selected.comments.value, commentId)))
  {
    UpdateFromPanel(d, d.selected.id, CommentsPatch(RemoveComment(d.selected.comments.value, commentId)))
  }

  /** Filtering out an id that only the last comment has gives back the list before it. */
  lemma {:induction false} RemoveAppendedComment(cs: seq<Comment>, c: Comment)
    requires forall i :: 0 <= i < |cs| ==> cs[i].id != c.id
    ensures RemoveComment(cs + [c], c.id) == cs
  {
    if cs == [] {
      assert [c][1..] == [];
    } else {
      assert (cs + [c])[1..] == cs[1..] + [c];
      RemoveAppendedComment(cs[1..], c);
      assert cs == [cs[0]] + cs[1..];
    }
  }

  /**
   * Adding a comment with a fresh id and deleting it again restores the panel
   * and, when the panel was in sync with a valid store, the store as well.
   */
  lemma AddThenDeleteComment(d: Detail, text: string, newId: string, timestamp: int)
    requires d.selected.comments.Some? && !IsBlank(text)
    requires forall i :: 0 <= i < |d.selected.comments.value| ==> d.selected.comments.value[i].id != newId
    ensures DeleteComment(AddComment(d, text, newId, timestamp), newId).selected == d.selected
    ensures InSync(d) && Valid(d.snapshot) ==> DeleteComment(AddComment(d, text, newId, timestamp), newId) == d
  {
    var cs := d.selected.comments.value;
    var c := Comment(newId, Trim(text), CurrentUser, timestamp);
    var a := AddComment(d, text, newId, timestamp);
    RemoveAppendedComment(cs, c);
    UpdateCardCompose(d.snapshot, d.selected.id, CommentsPatch(cs + [c]), CommentsPatch(cs));
    assert Then(CommentsPatch(cs + [c]), CommentsPatch(cs)) == CommentsPatch(cs);
    if InSync(d) && Valid(d.snapshot) {
      SaveOwnCommentsUnchanged(d);
    }
  }

  /** Saving back the comment list of an in-sync panel leaves a valid store as it was. */
  lemma SaveOwnCommentsUnchanged(d: Detail)
    requires d.selected.comments.Some? && InSync(d) && Valid(d.snapshot)
    ensures UpdateCard(d.snapshot, d.selected.id, CommentsPatch(d.selected.comments.value)) == d.snapshot
  {
    var cols := CurrentColumns(d.snapshot);
    var p := CommentsPatch(d.selected.comments.value);
    forall j | 0 <= j < |cols| ensures PatchCardList(cols[j].cards, d.selected.id, p) == cols[j].cards {
    }
    assert PatchCards(cols, d.selected.id, p) == cols;
    WithCurrentColumnsUnchanged(d.snapshot);
  }
}
