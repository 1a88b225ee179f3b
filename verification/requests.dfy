/** Incoming and outgoing borrow/swap requests: the five-state status,
    the map-by-id handlers, and which buttons each row offers. */
module Requests {
  import opened Common
  import opened Seqs
  import opened Text

  datatype RequestStatus = Pending | Approved | Rejected | Active | Completed

  datatype RequestItem = RequestItem(
    id: string,
    bookTitle: string,
    requesterName: string,
    requesterAvatar: string,
    requestType: RequestKind,
    requestDate: string,
    status: RequestStatus,
    dueDate: Option<string>,
    swapBook: Option<string>)

  /** Which list the component renders. */
  datatype Direction = Incoming | Outgoing

  function HasId(id: string): RequestItem -> bool
  {
    (r: RequestItem) => r.id == id
  }

  function WithStatus(s: RequestStatus): RequestItem -> RequestItem
  {
    (r: RequestItem) => r.(status := s)
  }

  /** The shared shape of the three handlers: every record with the id
      gets the new status; nothing else moves or changes. */
  function SetStatus(rs: seq<RequestItem>, id: string, s: RequestStatus): (r: seq<RequestItem>)
    ensures |r| == |rs|
    ensures forall i :: 0 <= i < |rs| ==> r[i] == rs[i].(status := r[i].status)
    ensures forall i :: 0 <= i < |rs| ==> r[i].status == (if rs[i].id == id then s else rs[i].status)
  {
    UpdateWhere(rs, HasId(id), WithStatus(s))
  }

  /** `handleApprove`: matching records become approved. */
  function Approve(rs: seq<RequestItem>, id: string): (r: seq<RequestItem>)
    ensures |r| == |rs|
    ensures forall i :: 0 <= i < |rs| ==> r[i] == (if rs[i].id == id then rs[i].(status := Approved) else rs[i])
  {
    SetStatus(rs, id, Approved)
  }

  /** `handleReject`: matching records become rejected. */
  function Reject(rs: seq<RequestItem>, id: string): (r: seq<RequestItem>)
    ensures |r| == |rs|
    ensures forall i :: 0 <= i < |rs| ==> r[i] == (if rs[i].id == id then rs[i].(status := Rejected) else rs[i])
  {
    SetStatus(rs, id, Rejected)
  }

  /** `handleMarkReturned`: matching records become completed. */
  function MarkReturned(rs: seq<RequestItem>, id: string): (r: seq<RequestItem>)
    ensures |r| == |rs|
    ensures forall i :: 0 <= i < |rs| ==> r[i] == (if rs[i].id == id then rs[i].(status := Completed) else rs[i])
  {
    SetStatus(rs, id, Completed)
  }

  /** An id that is not in the list leaves the list as it was. */
  lemma AbsentIdChangesNothing(rs: seq<RequestItem>, id: string, s: RequestStatus)
    requires forall i :: 0 <= i < |rs| ==> rs[i].id != id
    ensures SetStatus(rs, id, s) == rs
  {
    UpdateNothingSelected(rs, HasId(id), WithStatus(s));
  }

  /** Applying the same handler twice is applying it once. */
  lemma SetStatusIdempotent(rs: seq<RequestItem>, id: string, s: RequestStatus)
    ensures SetStatus(SetStatus(rs, id, s), id, s) == SetStatus(rs, id, s)
  {
  }

  /** The buttons of a row. */
  datatype RequestAction = ApproveButton | RejectButton | MarkReturnedButton | MessageButton

  /** The buttons a row shows, by direction and status. */
  function Offered(d: Direction, s: RequestStatus): set<RequestAction>
  {
    if d == Incoming && s == Pending then {ApproveButton, RejectButton}
    else if d == Outgoing && s == Active then {MarkReturnedButton, MessageButton}
    else if d == Incoming && s == Active then {MarkReturnedButton}
    else {}
  }

  /** Approve and Reject appear only on incoming pending rows; Mark as
      Returned only on active rows; Message only on outgoing active rows;
      approved, rejected and completed rows offer nothing. */
  lemma OfferedIff(d: Direction, s: RequestStatus)
    ensures ApproveButton in Offered(d, s) <==> d == Incoming && s == Pending
    ensures RejectButton in Offered(d, s) <==> d == Incoming && s == Pending
    ensures MarkReturnedButton in Offered(d, s) <==> s == Active
    ensures MessageButton in Offered(d, s) <==> d == Outgoing && s == Active
    ensures s == Approved || s == Rejected || s == Completed ==> Offered(d, s) == {}
  {
  }

  /** The status a button leaves its row in (Message only opens a toast). */
  function After(s: RequestStatus, a: RequestAction): RequestStatus
  {
    match a
    case ApproveButton => Approved
    case RejectButton => Rejected
    case MarkReturnedButton => Completed
    case MessageButton => s
  }

  /** A button click on the list: the handler runs with the row's id. */
  function Press(rs: seq<RequestItem>, id: string, a: RequestAction): (r: seq<RequestItem>)
    ensures |r| == |rs|
    ensures forall i :: 0 <= i < |rs| ==> r[i] == rs[i].(status := r[i].status)
    ensures forall i :: 0 <= i < |rs| ==>
      r[i].status == (if rs[i].id == id then After(rs[i].status, a) else rs[i].status)
  {
    match a
    case ApproveButton => Approve(rs, id)
    case RejectButton => Reject(rs, id)
    case MarkReturnedButton => MarkReturned(rs, id)
    case MessageButton => rs
  }

  /** The moves the status can make: pending to approved or rejected,
      active to completed, or staying put. */
  predicate Step(s: RequestStatus, t: RequestStatus)
  {
    s == t || (s == Pending && (t == Approved || t == Rejected)) || (s == Active && t == Completed)
  }

  /** Pressing an offered button moves the status along a step. */
  lemma OfferedMovesAlongStep(d: Direction, s: RequestStatus, a: RequestAction)
    requires a in Offered(d, s)
    ensures Step(s, After(s, a))
  {
  }

  /** The status after pressing, in order, whichever of the buttons were
      on screen at the time. */
  function Run(d: Direction, s: RequestStatus, presses: seq<RequestAction>): RequestStatus
    decreases |presses|
  {
    if |presses| == 0 then s
    else if presses[0] in Offered(d, s) then Run(d, After(s, presses[0]), presses[1..])
    else Run(d, s, presses[1..])
  }

  /** Any run of offered buttons moves the status by at most one step:
      nothing returns to pending, nothing becomes active, and approved,
      rejected and completed are final. */
  lemma {:induction false} RunIsOneStep(d: Direction, s: RequestStatus, presses: seq<RequestAction>)
    ensures Step(s, Run(d, s, presses))
    ensures Run(d, s, presses) == Pending ==> s == Pending
    ensures Run(d, s, presses) == Active ==> s == Active
    ensures s == Approved || s == Rejected || s == Completed ==> Run(d, s, presses) == s
    decreases |presses|
  {
    if |presses| > 0 {
      if presses[0] in Offered(d, s) {
        RunIsOneStep(d, After(s, presses[0]), presses[1..]);
      } else {
        RunIsOneStep(d, s, presses[1..]);
      }
    }
  }

  predicate UniqueIds(rs: seq<RequestItem>)
  {
    forall i, j :: 0 <= i < j < |rs| ==> rs[i].id != rs[j].id
  }

  /** With unique ids, pressing a button on row k changes only row k, and
      only along an allowed step. */
  lemma PressChangesOneRow(d: Direction, rs: seq<RequestItem>, k: int, a: RequestAction)
    requires UniqueIds(rs) && 0 <= k < |rs| && a in Offered(d, rs[k].status)
    ensures Press(rs, rs[k].id, a)[k] == rs[k].(status := After(rs[k].status, a))
    ensures forall i :: 0 <= i < |rs| && i != k ==> Press(rs, rs[k].id, a)[i] == rs[i]
    ensures forall i :: 0 <= i < |rs| ==> Step(rs[i].status, Press(rs, rs[k].id, a)[i].status)
  {
  }

  /** The due-date line: a non-empty due date on an active row. */
  predicate ShowsDueDate(r: RequestItem)
  {
    r.dueDate.Some? && r.dueDate.value != "" && r.status == Active
  }

  /** The due-date line needs an active row; a due date that is the empty
      string counts as absent. */
  lemma DueDateOnlyWhenActive(r: RequestItem)
    ensures ShowsDueDate(r) ==> r.status == Active && r.dueDate.Some?
    ensures r.dueDate == Some("") ==> !ShowsDueDate(r)
    ensures r.status != Active ==> !ShowsDueDate(r)
  {
  }

  /** The "Offers to swap with" line: shown for a swap book that is
      present and not the empty string, and naming it. */
  function SwapLine(r: RequestItem): (line: Option<string>)
    ensures line.Some? <==> r.swapBook.Some? && r.swapBook.value != ""
    ensures line.Some? ==> EndsWith(line.value, r.swapBook.value)
  {
    if r.swapBook.Some? && r.swapBook.value != "" then
      var line := "Offers to swap with: " + r.swapBook.value;
      assert line[|line| - |r.swapBook.value|..] == r.swapBook.value;
      Some(line)
    else None
  }

  /** The buttons change statuses only: every row keeps its swap line,
      whichever button is pressed on whichever row. */
  lemma PressKeepsSwapLines(rs: seq<RequestItem>, id: string, a: RequestAction)
    ensures forall i :: 0 <= i < |rs| ==> SwapLine(Press(rs, id, a)[i]) == SwapLine(rs[i])
  {
  }

  /** The status name `getStatusColor` is called with. */
  function StatusName(s: RequestStatus): string
  {
    match s
    case Pending => "pending"
    case Approved => "approved"
    case Rejected => "rejected"
    case Active => "active"
    case Completed => "completed"
  }

  const Gray := "bg-gray-100 text-gray-800"

  /** The badge colour class for a status name. */
  function StatusColor(status: string): (r: string)
    ensures status == "pending" ==> r == "bg-yellow-100 text-yellow-800"
    ensures status == "approved" ==> r == "bg-green-100 text-green-800"
    ensures status == "active" ==> r == "bg-blue-100 text-blue-800"
    ensures status == "rejected" ==> r == "bg-red-100 text-red-800"
    ensures status !in {"pending", "approved", "active", "rejected"} ==> r == Gray
  {
    match status
    case "pending" => "bg-yellow-100 text-yellow-800"
    case "approved" => "bg-green-100 text-green-800"
    case "active" => "bg-blue-100 text-blue-800"
    case "completed" => Gray
    case "rejected" => "bg-red-100 text-red-800"
    case _ => Gray
  }

  /** Pending, approved, active and rejected get pairwise distinct
      colours; completed shares the gray default with unknown names. */
  lemma StatusColorsDistinct(s: RequestStatus, t: RequestStatus, unknown: string)
    requires s != t && s != Completed && t != Completed
    requires unknown !in {"pending", "approved", "active", "rejected", "completed"}
    ensures StatusColor(StatusName(s)) != StatusColor(StatusName(t))
    ensures StatusColor(StatusName(Completed)) == StatusColor(unknown) == Gray
  {
  }
}
