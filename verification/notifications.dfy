/** One notification list: the feed it holds, the category it was
    mounted with, mark-as-read and archive. The notifications page mounts
    a separate list for each of its four tabs, each with its own copy of
    the feed, so everything here is about a single list. */
module Notifications {
  import opened Common
  import opened Seqs

  datatype NotificationType = Request | Approval | Return | DueSoon | Overdue

  datatype Notification = Notification(
    id: string,
    kind: NotificationType,
    title: string,
    message: string,
    userName: Option<string>,
    userAvatar: Option<string>,
    timestamp: string,
    read: bool,
    actionUrl: Option<string>)

  /** The `type` a list is mounted with, one per tab. */
  datatype View = AllView | RequestsView | ApprovalsView | ReturnsView

  /** Whether a notification type belongs to a view; the returns view
      also folds in due-soon and overdue. */
  predicate InView(v: View, t: NotificationType)
  {
    match v
    case AllView => true
    case RequestsView => t == Request
    case ApprovalsView => t == Approval
    case ReturnsView => t == Return || t == DueSoon || t == Overdue
  }

  function InViewOf(v: View): Notification -> bool
  {
    (n: Notification) => InView(v, n.kind)
  }

  /** The notifications a view lists, in feed order. */
  function Filtered(ns: seq<Notification>, v: View): (r: seq<Notification>)
    ensures IsSubsequence(r, ns)
    ensures forall n {:trigger n in r} :: n in r <==> n in ns && InView(v, n.kind)
    ensures forall n :: multiset(r)[n] == (if InView(v, n.kind) then multiset(ns)[n] else 0)
  {
    Filter(ns, InViewOf(v))
  }

  /** The "all" view is the whole feed. */
  lemma AllViewIsEverything(ns: seq<Notification>)
    ensures Filtered(ns, AllView) == ns
  {
    FilterKeepsAll(ns, InViewOf(AllView));
  }

  /** Every type lies in exactly one of the requests, approvals and
      returns views. */
  lemma CategoriesPartitionTypes(t: NotificationType)
    ensures InView(RequestsView, t) || InView(ApprovalsView, t) || InView(ReturnsView, t)
    ensures !(InView(RequestsView, t) && InView(ApprovalsView, t))
    ensures !(InView(RequestsView, t) && InView(ReturnsView, t))
    ensures !(InView(ApprovalsView, t) && InView(ReturnsView, t))
  {
  }

  /** Applied to the same feed (as the three category tabs are on first
      render), the three category filters split it: together they hold
      every notification exactly as often as the feed does. */
  lemma ViewsPartitionFeed(ns: seq<Notification>)
    ensures |Filtered(ns, RequestsView)| + |Filtered(ns, ApprovalsView)| + |Filtered(ns, ReturnsView)| == |ns|
    ensures multiset(Filtered(ns, RequestsView)) + multiset(Filtered(ns, ApprovalsView))
      + multiset(Filtered(ns, ReturnsView)) == multiset(ns)
  {
    forall i | 0 <= i < |ns|
      ensures InViewOf(RequestsView)(ns[i]) || InViewOf(ApprovalsView)(ns[i]) || InViewOf(ReturnsView)(ns[i])
    {
      CategoriesPartitionTypes(ns[i].kind);
    }
    FilterPartition3(ns, InViewOf(RequestsView), InViewOf(ApprovalsView), InViewOf(ReturnsView));
  }

  function HasId(id: string): Notification -> bool
  {
    (n: Notification) => n.id == id
  }

  function MarkRead(): Notification -> Notification
  {
    (n: Notification) => n.(read := true)
  }

  /** `handleMarkAsRead`: the matching notifications get `read`, nothing
      else changes. */
  function MarkAsRead(ns: seq<Notification>, id: string): (r: seq<Notification>)
    ensures |r| == |ns|
    ensures forall i :: 0 <= i < |ns| ==> r[i] == (if ns[i].id == id then ns[i].(read := true) else ns[i])
  {
    UpdateWhere(ns, HasId(id), MarkRead())
  }

  /** Marking as read twice is marking once. */
  lemma MarkAsReadIdempotent(ns: seq<Notification>, id: string)
    ensures MarkAsRead(MarkAsRead(ns, id), id) == MarkAsRead(ns, id)
  {
  }

  /** Within one list, marking as read commutes with the list's filter:
      whatever category the list was mounted with, it shows the same
      entries in the same order, each with the update applied. */
  lemma MarkAsReadKeepsViews(ns: seq<Notification>, id: string, v: View)
    ensures Filtered(MarkAsRead(ns, id), v) == MarkAsRead(Filtered(ns, v), id)
    ensures |Filtered(MarkAsRead(ns, id), v)| == |Filtered(ns, v)|
  {
    FilterUpdateCommute(ns, InViewOf(v), HasId(id), MarkRead());
  }

  /** The mark-as-read button is shown only on unread notifications. */
  predicate ShowsMarkAsRead(n: Notification)
  {
    !n.read
  }

  /** After marking, no notification with that id offers the button. */
  lemma MarkedOffersNoButton(ns: seq<Notification>, id: string)
    ensures forall i :: 0 <= i < |ns| && ns[i].id == id ==> !ShowsMarkAsRead(MarkAsRead(ns, id)[i])
  {
  }

  function NotId(id: string): Notification -> bool
  {
    (n: Notification) => n.id != id
  }

  /** `handleArchive`: every notification with the id goes, the rest stay
      in order. */
  function Archive(ns: seq<Notification>, id: string): (r: seq<Notification>)
    ensures IsSubsequence(r, ns)
    ensures forall n :: n in r <==> n in ns && n.id != id
    ensures forall n :: multiset(r)[n] == (if n.id != id then multiset(ns)[n] else 0)
  {
    Filter(ns, NotId(id))
  }

  /** Within one list, archiving commutes with the list's filter: the list
      shows what it showed before minus the archived entries, in the same
      order. */
  lemma ArchiveKeepsViews(ns: seq<Notification>, id: string, v: View)
    ensures Filtered(Archive(ns, id), v) == Filter(Filtered(ns, v), NotId(id))
  {
    FilterCommute(ns, NotId(id), InViewOf(v));
  }

  /** Within one list, an archived id is no longer shown, whatever
      category the list was mounted with. */
  lemma ArchivedIsInNoView(ns: seq<Notification>, id: string, v: View)
    ensures forall i :: 0 <= i < |Filtered(Archive(ns, id), v)| ==> Filtered(Archive(ns, id), v)[i].id != id
  {
    var r := Filtered(Archive(ns, id), v);
    forall i | 0 <= i < |r|
      ensures r[i].id != id
    {
      assert r[i] in Archive(ns, id);
    }
  }

  /** The empty-state panel is shown iff the current view is empty. */
  predicate ShowsEmptyState(ns: seq<Notification>, v: View)
  {
    |Filtered(ns, v)| == 0
  }

  lemma EmptyStateIff(ns: seq<Notification>, v: View)
    ensures ShowsEmptyState(ns, v) <==> forall i :: 0 <= i < |ns| ==> !InView(v, ns[i].kind)
  {
    FilterEmptyIff(ns, InViewOf(v));
  }

  /** The empty-state text. */
  function EmptyText(v: View): (r: string)
    ensures r == "No notifications" <==> v == AllView
    ensures r == "No notifications in this category" <==> v != AllView
  {
    if v == AllView then "No notifications" else "No notifications in this category"
  }
}
