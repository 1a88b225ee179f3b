/** The loan tracker: borrow records with their status, the return
    handlers, the extension dialog and the progress/day displays. */
module Tracking {
  import opened Common
  import opened Text
  import opened Seqs

  datatype LoanStatus = Active | Overdue | Returning | Completed

  /** A loan as the tracker holds it; `daysRemaining` and `progress` are
      set by hand in the data, not derived from dates. */
  datatype BorrowRecord = BorrowRecord(
    id: string,
    bookTitle: string,
    owner: string,
    borrowDate: string,
    dueDate: string,
    daysRemaining: int,
    status: LoanStatus,
    progress: int)

  function HasId(id: string): BorrowRecord -> bool
  {
    (b: BorrowRecord) => b.id == id
  }

  function WithStatus(s: LoanStatus): BorrowRecord -> BorrowRecord
  {
    (b: BorrowRecord) => b.(status := s)
  }

  /** `handleReturnBook`: matching records become completed. */
  function ReturnBook(bs: seq<BorrowRecord>, id: string): (r: seq<BorrowRecord>)
    ensures |r| == |bs|
    ensures forall i :: 0 <= i < |bs| ==> r[i] == (if bs[i].id == id then bs[i].(status := Completed) else bs[i])
  {
    UpdateWhere(bs, HasId(id), WithStatus(Completed))
  }

  /** `handleReturnImmediate`: matching records become returning. */
  function ReturnImmediate(bs: seq<BorrowRecord>, id: string): (r: seq<BorrowRecord>)
    ensures |r| == |bs|
    ensures forall i :: 0 <= i < |bs| ==> r[i] == (if bs[i].id == id then bs[i].(status := Returning) else bs[i])
  {
    UpdateWhere(bs, HasId(id), WithStatus(Returning))
  }

  /** A return handler with an id that is not present changes nothing. */
  lemma ReturnAbsentIdChangesNothing(bs: seq<BorrowRecord>, id: string)
    requires forall i :: 0 <= i < |bs| ==> bs[i].id != id
    ensures ReturnBook(bs, id) == bs && ReturnImmediate(bs, id) == bs
  {
    UpdateNothingSelected(bs, HasId(id), WithStatus(Completed));
    UpdateNothingSelected(bs, HasId(id), WithStatus(Returning));
  }

  /** Confirming a return twice is confirming it once. */
  lemma ReturnBookIdempotent(bs: seq<BorrowRecord>, id: string)
    ensures ReturnBook(ReturnBook(bs, id), id) == ReturnBook(bs, id)
  {
    var once := ReturnBook(bs, id);
    assert forall i :: 0 <= i < |bs| ==> ReturnBook(once, id)[i] == once[i];
  }

  /** Scheduling an immediate return twice is scheduling it once. */
  lemma ReturnImmediateIdempotent(bs: seq<BorrowRecord>, id: string)
    ensures ReturnImmediate(ReturnImmediate(bs, id), id) == ReturnImmediate(bs, id)
  {
    var once := ReturnImmediate(bs, id);
    assert forall i :: 0 <= i < |bs| ==> ReturnImmediate(once, id)[i] == once[i];
  }

  /** The buttons of a loan card. */
  datatype LoanAction = ConfirmReturn | RequestExtension | MessageOwner | ReturnImmediately | ContactOwner

  function Offered(s: LoanStatus): set<LoanAction>
  {
    match s
    case Active => {ConfirmReturn, RequestExtension, MessageOwner}
    case Overdue => {ReturnImmediately, ContactOwner}
    case Returning => {}
    case Completed => {}
  }

  /** Return, extension and message only while active; return-immediately
      and contact only while overdue; returning and completed offer
      nothing. */
  lemma OfferedIff(s: LoanStatus)
    ensures ConfirmReturn in Offered(s) <==> s == Active
    ensures RequestExtension in Offered(s) <==> s == Active
    ensures MessageOwner in Offered(s) <==> s == Active
    ensures ReturnImmediately in Offered(s) <==> s == Overdue
    ensures ContactOwner in Offered(s) <==> s == Overdue
    ensures s == Returning || s == Completed ==> Offered(s) == {}
  {
  }

  /** The status a button leaves its card in. */
  function After(s: LoanStatus, a: LoanAction): LoanStatus
  {
    match a
    case ConfirmReturn => Completed
    case ReturnImmediately => Returning
    case _ => s
  }

  /** Active to completed, overdue to returning, or staying put. */
  predicate Step(s: LoanStatus, t: LoanStatus)
  {
    s == t || (s == Active && t == Completed) || (s == Overdue && t == Returning)
  }

  /** The status after pressing, in order, whichever buttons were shown. */
  function Run(s: LoanStatus, presses: seq<LoanAction>): LoanStatus
    decreases |presses|
  {
    if |presses| == 0 then s
    else if presses[0] in Offered(s) then Run(After(s, presses[0]), presses[1..])
    else Run(s, presses[1..])
  }

  /** Any run of offered buttons moves a loan by at most one step; no
      loan ever becomes active or overdue, and returning and completed
      are final. */
  lemma {:induction false} RunIsOneStep(s: LoanStatus, presses: seq<LoanAction>)
    ensures Step(s, Run(s, presses))
    ensures Run(s, presses) == Active ==> s == Active
    ensures Run(s, presses) == Overdue ==> s == Overdue
    ensures s == Returning || s == Completed ==> Run(s, presses) == s
    decreases |presses|
  {
    if |presses| > 0 {
      if presses[0] in Offered(s) {
        RunIsOneStep(After(s, presses[0]), presses[1..]);
      } else {
        RunIsOneStep(s, presses[1..]);
      }
    }
  }

  /** The progress bar value: `Math.min(progress, 100)`. */
  function DisplayedProgress(progress: int): (r: int)
    ensures r <= 100 && r <= progress
    ensures r == progress || r == 100
  {
    if progress < 100 then progress else 100
  }

  const OverdueSuffix := " days overdue"
  const DaysSuffix := " days"

  /** The "Time Remaining" text. Overdue loans show the absolute day count
      followed by " days overdue"; the others show the signed count
      followed by " days". The number is in the one canonical form and
      reads back as that count (CanonicalDecimalRoundTrip and
      CanonicalIntRoundTrip make the text unique). */
  function TimeText(b: BorrowRecord): (r: string)
    ensures b.status == Overdue ==>
      && EndsWith(r, OverdueSuffix)
      && IsCanonicalDecimal(r[..|r| - |OverdueSuffix|])
      && ParseDecimal(r[..|r| - |OverdueSuffix|]) == Abs(b.daysRemaining)
    ensures b.status != Overdue ==>
      && !EndsWith(r, OverdueSuffix)
      && EndsWith(r, DaysSuffix)
      && IsCanonicalInt(r[..|r| - |DaysSuffix|])
      && IsNumeral(r[..|r| - |DaysSuffix|])
      && ParseInt(r[..|r| - |DaysSuffix|]) == b.daysRemaining
  {
    if b.status == Overdue then
      var n := Decimal(Abs(b.daysRemaining));
      var r := n + OverdueSuffix;
      assert r[..|r| - |OverdueSuffix|] == n;
      assert r[|r| - |OverdueSuffix|..] == OverdueSuffix;
      DecimalRoundTrip(Abs(b.daysRemaining));
      r
    else
      var n := IntToString(b.daysRemaining);
      var r := n + DaysSuffix;
      assert r[..|r| - |DaysSuffix|] == n;
      assert r[|r| - |DaysSuffix|..] == DaysSuffix;
      assert r[|r| - 1] == 's';
      IntRoundTrip(b.daysRemaining);
      r
  }

  datatype BadgeVariant = Destructive | Secondary | Default

  /** The status badge's variant. */
  function Variant(s: LoanStatus): (r: BadgeVariant)
    ensures r == Destructive <==> s == Overdue
    ensures r == Secondary <==> s == Completed
    ensures r == Default <==> (s == Active || s == Returning)
  {
    match s
    case Overdue => Destructive
    case Completed => Secondary
    case _ => Default
  }

  /** The tracker page: the records and the extension dialog. */
  datatype Tracker = Tracker(borrows: seq<BorrowRecord>, dialogOpen: bool, extensionDays: string, selected: Option<string>)

  function InitialTracker(borrows: seq<BorrowRecord>): (t: Tracker)
    ensures t.borrows == borrows && !t.dialogOpen && t.extensionDays == "7" && t.selected.None?
  {
    Tracker(borrows, false, "7", None)
  }

  /** `!selectedBorrowId`: no selection, or the empty id. */
  predicate NoSelection(t: Tracker)
  {
    t.selected.None? || t.selected.value == ""
  }

  /** `handleSubmitExtension`: a no-op without a selection or with an
      empty day string; otherwise the dialog closes and the day field goes
      back to "7". The records are never touched and the 1 to 30 range of
      the input is not checked. */
  function SubmitExtension(t: Tracker): (r: Tracker)
    ensures r.borrows == t.borrows && r.selected == t.selected
    ensures NoSelection(t) || t.extensionDays == "" ==> r == t
    ensures !NoSelection(t) && t.extensionDays != "" ==> !r.dialogOpen && r.extensionDays == "7"
  {
    if NoSelection(t) || t.extensionDays == "" then t
    else t.(dialogOpen := false, extensionDays := "7")
  }

  /** The day input's `onChange`: the text is stored as typed. */
  function ChangeDays(t: Tracker, days: string): (r: Tracker)
    ensures r.extensionDays == days
    ensures r.borrows == t.borrows && r.dialogOpen == t.dialogOpen && r.selected == t.selected
  {
    t.(extensionDays := days)
  }

  /** The dialog's Cancel button (and closing it any other way). */
  function CancelExtension(t: Tracker): (r: Tracker)
    ensures !r.dialogOpen
    ensures r.borrows == t.borrows && r.extensionDays == t.extensionDays && r.selected == t.selected
  {
    t.(dialogOpen := false)
  }

  /** Cancel keeps the typed day count: reopening the dialog, for the
      same loan or another, shows it again. Only a sent extension puts the
      field back to "7". */
  lemma CancelKeepsDays(t: Tracker, days: string, id: string)
    ensures Press(CancelExtension(ChangeDays(t, days)), id, RequestExtension).extensionDays == days
    ensures id != "" ==>
      var sent := SubmitExtension(ChangeDays(Press(t, id, RequestExtension), days));
      Press(sent, id, RequestExtension).extensionDays == (if days == "" then "" else "7")
  {
  }

  /** The 1 to 30 bounds of the input are not checked: with any loan
      selected, every non-empty day string, even one out of range (0,
      negative, fractional or above 30), is sent and closes the dialog,
      with the same result as any other. */
  lemma ExtensionRangeIsNotChecked(t: Tracker, days: string)
    requires !NoSelection(t) && days != ""
    ensures !SubmitExtension(ChangeDays(t, days)).dialogOpen
    ensures SubmitExtension(ChangeDays(t, days)) == SubmitExtension(ChangeDays(t, "7"))
  {
  }

  /** A button press on the card of the loan with the given id. */
  function Press(t: Tracker, id: string, a: LoanAction): (r: Tracker)
    ensures |r.borrows| == |t.borrows|
    ensures forall i :: 0 <= i < |t.borrows| ==> r.borrows[i] == t.borrows[i].(status := r.borrows[i].status)
    ensures forall i :: 0 <= i < |t.borrows| ==>
      r.borrows[i].status == (if t.borrows[i].id == id then After(t.borrows[i].status, a) else t.borrows[i].status)
    ensures r.extensionDays == t.extensionDays
    ensures r.dialogOpen == (t.dialogOpen || a == RequestExtension)
    ensures r.selected == (if a == RequestExtension then Some(id) else t.selected)
  {
    match a
    case ConfirmReturn => t.(borrows := ReturnBook(t.borrows, id))
    case ReturnImmediately => t.(borrows := ReturnImmediate(t.borrows, id))
    case RequestExtension => t.(selected := Some(id), dialogOpen := true)
    case _ => t
  }

  predicate UniqueIds(bs: seq<BorrowRecord>)
  {
    forall i, j :: 0 <= i < j < |bs| ==> bs[i].id != bs[j].id
  }

  /** With unique ids, an offered button on card k moves only card k, and
      only along an allowed step. */
  lemma PressChangesOneCard(t: Tracker, k: int, a: LoanAction)
    requires UniqueIds(t.borrows) && 0 <= k < |t.borrows| && a in Offered(t.borrows[k].status)
    ensures |Press(t, t.borrows[k].id, a).borrows| == |t.borrows|
    ensures Press(t, t.borrows[k].id, a).borrows[k] == t.borrows[k].(status := After(t.borrows[k].status, a))
    ensures forall i :: 0 <= i < |t.borrows| && i != k ==> Press(t, t.borrows[k].id, a).borrows[i] == t.borrows[i]
  {
  }
}
