/** The book detail modal: choosing borrow or swap, writing a message
    and submitting the request, with the one validation rule that a swap
    needs a message that is not blank. */
module DetailModal {
  import opened Common
  import opened Text
  import opened Catalog

  /** The modal's own state: the message box and the chosen kind. */
  datatype Draft = Draft(message: string, kind: RequestKind)

  /** The catalog page together with its detail modal. The modal is
      mounted once by the catalog and stays mounted whichever book is
      selected and whether or not it is open, so its draft lives as long
      as the page; its `open` flag is the page's `modalOpen`. */
  datatype Page = Page(sel: Selection, draft: Draft)

  /** The page as first rendered: nothing selected, modal closed, an
      empty message and borrow chosen. */
  function Mounted(): (r: Page)
    ensures r.sel.selected.None? && !r.sel.modalOpen
    ensures r.draft.message == "" && r.draft.kind == Borrow
  {
    Page(InitialSelection, Draft("", Borrow))
  }

  /** A card's request button: the catalog's `handleRequest`. The modal
      is not remounted, so the draft is left as it was. */
  function Open(p: Page, b: Book): (r: Page)
    ensures r.sel.selected == Some(b) && r.sel.modalOpen
    ensures r.draft == p.draft
  {
    p.(sel := HandleRequest(p.sel, b))
  }

  /** Typing in the message box. */
  function ChangeMessage(p: Page, message: string): (r: Page)
    ensures r.draft.message == message && r.draft.kind == p.draft.kind && r.sel == p.sel
  {
    p.(draft := p.draft.(message := message))
  }

  /** The Borrow and Swap buttons. */
  function ChooseKind(p: Page, kind: RequestKind): (r: Page)
    ensures r.draft.kind == kind && r.draft.message == p.draft.message && r.sel == p.sel
  {
    p.(draft := p.draft.(kind := kind))
  }

  /** The two inputs are independent: edits to one commute with edits to
      the other, and the last edit to each wins. */
  lemma EditsCommute(p: Page, m1: string, m2: string, k1: RequestKind, k2: RequestKind)
    ensures ChooseKind(ChangeMessage(p, m1), k1) == ChangeMessage(ChooseKind(p, k1), m1)
    ensures ChangeMessage(ChangeMessage(p, m1), m2) == ChangeMessage(p, m2)
    ensures ChooseKind(ChooseKind(p, k1), k2) == ChooseKind(p, k2)
  {
  }

  /** The Cancel button (and closing the dialog any other way): the page
      closes the modal and keeps the selection and the draft. */
  function Cancel(p: Page): (r: Page)
    ensures !r.sel.modalOpen && r.sel.selected == p.sel.selected && r.draft == p.draft
  {
    p.(sel := p.sel.(modalOpen := false))
  }

  /** Cancel discards nothing: cancelling and then requesting any book,
      the same one or another, is the same as requesting it directly, so
      the half-written message and the chosen kind reappear. */
  lemma CancelKeepsDraft(p: Page, b: Book)
    ensures Open(Cancel(p), b) == Open(p, b)
    ensures Open(Cancel(p), b).draft == p.draft
  {
  }

  /** The validation rule: a swap whose message trims to nothing. */
  predicate MissingSwapMessage(d: Draft)
  {
    IsBlank(d.message) && d.kind == Swap
  }

  datatype Outcome = Rejected | Sent(kind: RequestKind)

  datatype Submission = Submission(next: Page, outcome: Outcome)

  /** `handleRequestSubmit`. There is nothing to submit without a book,
      since the modal then renders nothing. A swap with a blank message
      is rejected and nothing changes; anything else is sent, the message
      is cleared, the chosen kind is kept and the modal closes. */
  function Submit(p: Page): (r: Option<Submission>)
    ensures r.None? <==> p.sel.selected.None?
    ensures p.sel.selected.Some? && p.draft.kind == Swap && AllSpace(p.draft.message) ==>
      r == Some(Submission(p, Rejected))
    ensures p.sel.selected.Some? && !(p.draft.kind == Swap && AllSpace(p.draft.message)) ==>
      && r.Some? && r.value.outcome == Sent(p.draft.kind)
      && r.value.next.draft == Draft("", p.draft.kind)
      && r.value.next.sel == Selection(p.sel.selected, false)
  {
    TrimEmptyIff(p.draft.message);
    if p.sel.selected.None? then None
    else if MissingSwapMessage(p.draft) then Some(Submission(p, Rejected))
    else Some(Submission(Page(p.sel.(modalOpen := false), p.draft.(message := "")), Sent(p.draft.kind)))
  }

  /** A borrow request is never rejected, whatever the message says. */
  lemma BorrowIsNeverRejected(p: Page)
    requires p.sel.selected.Some? && p.draft.kind == Borrow
    ensures Submit(p).Some? && Submit(p).value.outcome == Sent(Borrow)
  {
  }

  /** Submitting again after a rejection is rejected again: a rejection
      leaves the page exactly as it was. */
  lemma RejectionIsStable(p: Page)
    requires p.sel.selected.Some? && Submit(p).value.outcome == Rejected
    ensures Submit(Submit(p).value.next) == Submit(p)
  {
  }

  /** After a sent request the next one, for any book, starts with an
      empty message but with the kind that was last chosen. */
  lemma SentKeepsKind(p: Page, b: Book)
    requires p.sel.selected.Some? && Submit(p).value.outcome.Sent?
    ensures Open(Submit(p).value.next, b).draft == Draft("", p.draft.kind)
  {
  }

  /** The success toast names the request kind, then the owner. */
  function SentDescription(kind: RequestKind, owner: string): (r: string)
    ensures StartsWith(r, KindWord(kind))
    ensures EndsWith(r, " request sent to " + owner)
    ensures |r| == |KindWord(kind)| + |" request sent to " + owner|
  {
    var r := KindWord(kind) + " request sent to " + owner;
    assert r == KindWord(kind) + (" request sent to " + owner);
    ConcatParts(KindWord(kind), " request sent to " + owner);
    r
  }
}
