# BookSwap lending UI: a Dafny model of its component logic

BookSwap is a browser UI for a peer-to-peer book-sharing service. Users browse a
catalog, send borrow or swap requests, track loans, read notifications and
manage a profile. All of its data is mock data held in component state. There
is no backend. What it does have is a small amount of pure, sequential logic
inside the components, and this project models that logic and proves
properties of it:

- **Catalog** (`catalog.dfy`, `search_filters.dfy`, `book_card.dfy`,
  `detail_modal.dfy`). The conjunctive filter over the book list, the filter
  bar's sentinels, Clear and "has active filters", and the card's
  request-or-notify button. Also the detail modal, which the catalog mounts
  once, so its draft message and kind outlive Cancel and the choice of book.
  A swap request needs a message that is not blank after trimming.
- **Add-book form** (`add_book.dfy`). The form's checks: a non-empty title,
  author and genre, with no trimming. Also the simulated submit, its
  completion, and Cancel.
- **Request lifecycle** (`requests.dfy`). A five-state status, updates by id,
  and which buttons each direction and status offers.
- **Loan tracker** (`tracking.dfy`). Return handlers, the buttons per status,
  the clamped progress bar, the day text and the extension dialog.
- **Notification list** (`notifications.dfy`). One list instance: its
  category filter, mark-as-read and archive.
- **Profile and collection** (`collection.dfy`, `profile.dfy`). Delete by id,
  favourite toggling and the heart icons, the settings toggles, and the
  "save" buttons that change nothing.

Shared pieces:

- `seqs.dfy` holds `Filter` and `UpdateWhere`, the `array.filter` and
  `array.map`-by-id patterns used by the catalog, requests, tracking,
  notification and collection components. Its lemmas cover subsequence,
  multiplicity, commutation and partition.
- `text.dfy` holds ASCII lowercasing, trimming, substring search and decimal
  rendering. Lowercasing is specified character by character by its
  ensures. Trimming is characterised completely (a piece with only
  whitespace around it and none at its ends), and a lemma shows that the
  characterisation has exactly one solution. Substring search is tied to
  an occurrence-at-an-index definition. Decimal rendering has round trips
  in both directions.
- `common.dfy` holds `Option` and the borrow/swap kind.

Records are immutable datatypes. Handlers are pure functions from the old
state to the new. Strings stay strings wherever the source compares strings.
Fixed unions become datatypes (the request and loan statuses, notification
types, request kinds).

Some behaviour of the code is easy to misread from its user interface. The
model states what the code does:

- The filter bar offers a location select, and choosing a location lights the
  "active filters" state. The matcher never reads `filters.location`
  (components/books/book-catalog.tsx:138-149), so the result ignores it
  (`Catalog.LocationIsIgnored`).
- No request handler sets the status `active`
  (components/requests/borrow-swap-requests.tsx:141-166). Approved rows
  therefore offer no further button, and "Mark as Returned" appears only on
  rows whose data already says `active` (`Requests.RunIsOneStep`).
- The swap check trims the message
  (components/books/book-detail-modal.tsx:26), so a message of blanks is
  rejected as well (`DetailModal.Submit`).
- Delete filters by id (components/profile/book-collection-grid.tsx:114-115).
  The count drops by one only for a present, unique id
  (`Collection.DeleteCount`).

## Model

| member | source | states |
|---|---|---|
| Seqs.Filter | components/books/book-catalog.tsx:138-149 | `filter` returns an order-preserving subsequence of its input, holding each element that satisfies the predicate exactly as often as the input does, and no other |
| Seqs.FilterPartition3 | components/notifications/notifications-list.tsx:103-105 | filters by three predicates that classify every element exactly once together hold the sequence exactly (lengths and multisets add up) |
| Seqs.FilterCommute | components/notifications/notifications-list.tsx:101-117 | filters by two predicates give the same list in either order |
| Seqs.UpdateWhere | components/requests/borrow-swap-requests.tsx:142 | map-by-selector keeps length and positions, replaces selected elements by their image and keeps the others |
| Text.IncludesIff | components/books/book-catalog.tsx:141-142 | `includes` holds iff the needle occurs at some index of the hay |
| Text.TrimIsUnique | components/books/book-detail-modal.tsx:26 | any piece of a string with only whitespace before and after it, and none at its own ends, is the string's `trim()` |
| Text.TrimEmptyIff | components/books/book-detail-modal.tsx:26 | a string trims to "" iff every character is whitespace |
| Text.CanonicalDecimalRoundTrip | components/tracking/request-status-tracking.tsx:162-164 | a digit string with no leading zero (or "0") is the rendering of the number it denotes, so each count has exactly one such numeral |
| Text.CanonicalIntRoundTrip | components/tracking/request-status-tracking.tsx:164 | a canonical signed numeral (never "-0", no leading zero) is the rendering of the integer it denotes |
| Catalog.FilteredBooks | components/books/book-catalog.tsx:138-149 | the shown books are a subsequence of the list; a matching book is shown exactly as often as it occurs, a non-matching one never |
| Catalog.FilteredIsShorter | components/books/book-catalog.tsx:138-149 | filtering never yields more books than the list holds |
| Catalog.MatchesIff | components/books/book-catalog.tsx:139-148 | a book matches iff the term is empty or occurs case-insensitively in title or author, and genre, availability and condition are each their wildcard ("", "all", "") or exactly equal |
| Catalog.NoFilterShowsAll | components/books/book-catalog.tsx:139-146 | empty term, genre "", availability "all" and condition "" return every book, whatever the location |
| Catalog.LocationIsIgnored | components/books/book-catalog.tsx:138-149 | changing the location filter never changes the result |
| Catalog.EmptyPanelIff | components/books/book-catalog.tsx:178 | the "No books found" panel shows iff no book matches |
| Catalog.ResultLabel | components/books/book-catalog.tsx:173 | the header is the count's numeral immediately followed by " book found" when exactly one result and " books found" otherwise, with nothing in between |
| Catalog.HandleRequest | components/books/book-catalog.tsx:151-158 | requesting selects the book and opens the detail modal |
| SearchFilters.FromSelect | components/books/book-search-filters.tsx:27-41 | a select's sentinel is stored as "", any other value verbatim |
| SearchFilters.Shown | components/books/book-search-filters.tsx:82 | a select displays the sentinel for a stored "" and the stored value otherwise |
| SearchFilters.ChangeSearch | components/books/book-search-filters.tsx:75 | typing stores the term verbatim and leaves the filters alone |
| SearchFilters.ChangeGenre | components/books/book-search-filters.tsx:27-29 | only the genre changes, to the sentinel-mapped value |
| SearchFilters.ChangeAvailability | components/books/book-search-filters.tsx:31-33 | only availability changes, to the value verbatim (no sentinel) |
| SearchFilters.ChangeLocation | components/books/book-search-filters.tsx:35-37 | only the location changes, to the sentinel-mapped value |
| SearchFilters.ChangeCondition | components/books/book-search-filters.tsx:39-41 | only the condition changes, to the sentinel-mapped value |
| SearchFilters.Clear | components/books/book-search-filters.tsx:43-51 | Clear yields search "" and filters {"", "all", "", ""} |
| SearchFilters.ActiveIffNotCleared | components/books/book-search-filters.tsx:54-55 | filters are active iff the query differs from the cleared one, so they are inactive right after Clear |
| SearchFilters.InitialIsCleared | app/books/page.tsx:10-16 | the page starts in the cleared state |
| SearchFilters.InactiveShowsAll | components/books/book-search-filters.tsx:54-55 | when no filter is active, every book is shown |
| SearchFilters.HandlersStoreNoSentinel | components/books/book-search-filters.tsx:27-51 | no handler ever stores a sentinel |
| SearchFilters.SelectRoundTrip | components/books/book-search-filters.tsx:82-125 | feeding each select's displayed value back into its handler reproduces the query |
| SearchFilters.LocationActivatesButIsIgnored | components/books/book-search-filters.tsx:112-122 | choosing a location activates the filters yet leaves the catalog result unchanged |
| BookCard.PrimaryAction | components/books/book-card.tsx:104-110 | the button calls request iff the book is "available", notify otherwise; exactly one |
| BookCard.ButtonLabel | components/books/book-card.tsx:112 | "Request Book" iff the action is request, "Notify Me" iff notify |
| BookCard.Click | components/books/book-card.tsx:104-110 | an available book is selected with the modal opened; otherwise the page is unchanged, as `handleNotify` only toasts |
| BookCard.ConditionLabel | components/books/book-card.tsx:47 | "like-new" shows "Like New", anything else verbatim |
| BookCard.ConditionLabelCollisions | components/books/book-card.tsx:47 | two distinct conditions share a badge only for "like-new" and "Like New" |
| BookCard.TypeLabel | components/books/book-card.tsx:62 | "Borrow" iff the kind is borrow, else "Swap" |
| BookCard.AvailabilityLabel | components/books/book-card.tsx:96-97 | "Available Now" iff available, else "Unavailable" |
| BookCard.ToggleHeart | components/books/book-card.tsx:53 | the heart negates the favourite flag |
| BookCard.ToggleHeartTwice | components/books/book-card.tsx:28-53 | two clicks restore the card state |
| BookCard.HeartAfterClicks | components/books/book-card.tsx:28-53 | a fresh card is favourited exactly after an odd number of heart clicks |
| DetailModal.Mounted | components/books/book-detail-modal.tsx:19-20 | the page starts with nothing selected, the modal closed, message "" and kind borrow |
| DetailModal.Open | components/books/book-catalog.tsx:151-196 | a request selects the book and opens the modal, leaving the draft as it was |
| DetailModal.ChangeMessage | components/books/book-detail-modal.tsx:141 | typing sets the message and keeps the kind and the selection |
| DetailModal.ChooseKind | components/books/book-detail-modal.tsx:117-125 | the kind buttons set the kind and keep the message and the selection |
| DetailModal.EditsCommute | components/books/book-detail-modal.tsx:117-141 | message and kind edits commute, and the last edit to each wins |
| DetailModal.Cancel | components/books/book-detail-modal.tsx:151 | Cancel closes the modal and keeps the selection and the draft |
| DetailModal.CancelKeepsDraft | components/books/book-detail-modal.tsx:18-23 | cancelling and then requesting any book equals requesting it directly: the draft message and kind reappear |
| DetailModal.Submit | components/books/book-detail-modal.tsx:23-42 | no book means no submit; a swap whose message is all whitespace is rejected with the page unchanged; otherwise it is sent with the kind, the message reset to "", the kind kept and the modal closed |
| DetailModal.BorrowIsNeverRejected | components/books/book-detail-modal.tsx:26 | a borrow request is sent whatever the message |
| DetailModal.RejectionIsStable | components/books/book-detail-modal.tsx:26-33 | resubmitting after a rejection is rejected again |
| DetailModal.SentKeepsKind | components/books/book-detail-modal.tsx:40-41 | after a sent request the next request, for any book, opens with an empty message and the last chosen kind |
| DetailModal.SentDescription | components/books/book-detail-modal.tsx:37 | the success text is "Borrow" or "Swap" per kind immediately followed by " request sent to " and the owner |
| AddBook.Set | app/books/add/page.tsx:33-40 | a field edit sets the named field and keeps the other seven |
| AddBook.SetOwnValue | app/books/add/page.tsx:33-40 | writing back a field's own value changes nothing |
| AddBook.ChangeField | app/books/add/page.tsx:33-40 | an edit touches only the form, not the submitting state |
| AddBook.Submit | app/books/add/page.tsx:42-55 | any of title, author, genre empty: nothing changes; all present: submitting and one completion scheduled |
| AddBook.Complete | app/books/add/page.tsx:57-64 | the completion clears the submitting flag and redirects, form kept |
| AddBook.Cancel | app/books/add/page.tsx:227-233 | Cancel (enabled only when not submitting) redirects, keeping the form and the schedule |
| AddBook.CancelMatchesCompletedSubmit | app/books/add/page.tsx:54-64 | from a valid, idle form, an accepted submit and its completion land on the same page state as Cancel |
| AddBook.SubmitLabel | app/books/add/page.tsx:224 | "Adding Book..." iff submitting, else "Add Book" |
| AddBook.BorrowDurationVisibility | app/books/add/page.tsx:199 | the duration select shows iff lendingType is "borrow" or "both"; other edits do not affect it |
| AddBook.SubmitAcceptedIff | app/books/add/page.tsx:45-52 | a completion is scheduled iff title, author and genre are all non-empty |
| AddBook.SubmitThenComplete | app/books/add/page.tsx:54-64 | an accepted submit then its completion leaves isSubmitting false and redirected, form intact |
| AddBook.DefaultFormIsIncomplete | app/books/add/page.tsx:22-31 | the default form (genre "") is rejected and shows the borrow duration |
| AddBook.BlankTitleIsAccepted | app/books/add/page.tsx:45 | a whitespace-only title passes, though it trims to "" |
| Requests.SetStatus | components/requests/borrow-swap-requests.tsx:141-166 | only the status of records with the id changes; length, order, ids and other fields are kept |
| Requests.Approve | components/requests/borrow-swap-requests.tsx:141-148 | matching records become approved, the rest unchanged |
| Requests.Reject | components/requests/borrow-swap-requests.tsx:150-157 | matching records become rejected, the rest unchanged |
| Requests.MarkReturned | components/requests/borrow-swap-requests.tsx:159-166 | matching records become completed, the rest unchanged |
| Requests.AbsentIdChangesNothing | components/requests/borrow-swap-requests.tsx:142 | an id not in the list leaves the list unchanged |
| Requests.SetStatusIdempotent | components/requests/borrow-swap-requests.tsx:141-166 | applying a handler twice equals applying it once |
| Requests.OfferedIff | components/requests/borrow-swap-requests.tsx:224-263 | approve/reject iff incoming pending; mark-returned iff active; message iff outgoing active; approved, rejected, completed offer nothing |
| Requests.OfferedMovesAlongStep | components/requests/borrow-swap-requests.tsx:224-263 | an offered button moves pending to approved/rejected or active to completed, or stays |
| Requests.Press | components/requests/borrow-swap-requests.tsx:226-259 | a button press changes only the status of rows with the id, to the status the button names; Message changes nothing |
| Requests.RunIsOneStep | components/requests/borrow-swap-requests.tsx:141-263 | any run of offered presses moves by at most one step; nothing returns to pending or becomes active; approved, rejected, completed are final |
| Requests.PressChangesOneRow | components/requests/borrow-swap-requests.tsx:141-166 | with unique ids a press changes only its own row, along an allowed step |
| Requests.DueDateOnlyWhenActive | components/requests/borrow-swap-requests.tsx:209 | the due-date line needs an active row with a non-empty due date |
| Requests.SwapLine | components/requests/borrow-swap-requests.tsx:201-205 | the swap line shows iff the swap book is present and non-empty, and it ends with that book |
| Requests.PressKeepsSwapLines | components/requests/borrow-swap-requests.tsx:141-166 | no button press changes any row's swap line |
| Requests.StatusColor | components/requests/borrow-swap-requests.tsx:95-110 | the colour class for each status name, gray for completed and anything unknown |
| Requests.StatusColorsDistinct | components/requests/borrow-swap-requests.tsx:95-110 | pending, approved, active and rejected colours are pairwise distinct; completed equals the unknown-status default |
| Tracking.ReturnBook | components/tracking/request-status-tracking.tsx:65-66 | matching loans become completed; nothing else changes |
| Tracking.ReturnImmediate | components/tracking/request-status-tracking.tsx:97-102 | matching loans become returning; nothing else changes |
| Tracking.ReturnAbsentIdChangesNothing | components/tracking/request-status-tracking.tsx:65-102 | either return handler with an absent id leaves the loans unchanged |
| Tracking.ReturnBookIdempotent | components/tracking/request-status-tracking.tsx:65-66 | confirming a return twice equals confirming it once |
| Tracking.ReturnImmediateIdempotent | components/tracking/request-status-tracking.tsx:97-102 | scheduling an immediate return twice equals doing it once |
| Tracking.OfferedIff | components/tracking/request-status-tracking.tsx:181-220 | return, extension and message iff active; return-immediately and contact iff overdue; returning and completed offer nothing |
| Tracking.RunIsOneStep | components/tracking/request-status-tracking.tsx:65-220 | any run of offered presses moves active to completed or overdue to returning at most; nothing becomes active or overdue |
| Tracking.DisplayedProgress | components/tracking/request-status-tracking.tsx:172 | the bar value is min(progress, 100): never above 100 or progress, equal to one of them |
| Tracking.TimeText | components/tracking/request-status-tracking.tsx:162-164 | overdue: a canonical numeral reading back as abs(daysRemaining), then " days overdue"; otherwise a canonical signed numeral reading back as daysRemaining, then " days" |
| Tracking.Variant | components/tracking/request-status-tracking.tsx:117-119 | destructive iff overdue, secondary iff completed, default otherwise |
| Tracking.InitialTracker | components/tracking/request-status-tracking.tsx:59-62 | the dialog starts closed with days "7" and no selection |
| Tracking.ChangeDays | components/tracking/request-status-tracking.tsx:242 | typing stores the day text as typed and touches nothing else |
| Tracking.SubmitExtension | components/tracking/request-status-tracking.tsx:78-88 | no selection or empty days: no-op; otherwise dialog closes and days reset to "7"; the records never change |
| Tracking.CancelExtension | components/tracking/request-status-tracking.tsx:255 | Cancel closes the dialog and keeps the records, the selection and the day text |
| Tracking.CancelKeepsDays | components/tracking/request-status-tracking.tsx:73-88 | a day count typed and cancelled reappears when the dialog is reopened for any loan; after a sent request the field shows "7" again |
| Tracking.ExtensionRangeIsNotChecked | components/tracking/request-status-tracking.tsx:78-88 | with any loan selected, every non-empty day string is sent, with the same result as "7"; the 1 to 30 bounds are not checked |
| Tracking.Press | components/tracking/request-status-tracking.tsx:181-220 | a card button changes only the status of loans with the id, to the status the button names; only Request Extension opens the dialog and selects the loan; the day text is untouched |
| Tracking.PressChangesOneCard | components/tracking/request-status-tracking.tsx:65-102 | with unique ids an offered press changes only its own card's status |
| Notifications.Filtered | components/notifications/notifications-list.tsx:101-107 | a list shows an order-preserving subsequence of its feed: each notification of its category exactly as often as in the feed, no other |
| Notifications.AllViewIsEverything | components/notifications/notifications-list.tsx:102 | the "all" list shows the whole feed |
| Notifications.CategoriesPartitionTypes | components/notifications/notifications-list.tsx:103-105 | every type is in exactly one of requests, approvals, returns |
| Notifications.ViewsPartitionFeed | components/notifications/notifications-list.tsx:101-107 | applied to the same feed, the three category filters together hold it exactly (lengths and multisets add up) |
| Notifications.MarkAsRead | components/notifications/notifications-list.tsx:109-110 | matching notifications get read := true; length, order and other fields kept |
| Notifications.MarkAsReadIdempotent | components/notifications/notifications-list.tsx:109-110 | marking twice equals marking once |
| Notifications.MarkAsReadKeepsViews | components/notifications/notifications-list.tsx:101-110 | within one list, marking commutes with the list's filter: same entries, same order, each updated |
| Notifications.MarkedOffersNoButton | components/notifications/notifications-list.tsx:164 | after marking, no notification with the id shows the mark-as-read button |
| Notifications.Archive | components/notifications/notifications-list.tsx:116-117 | every notification with the id is removed; each other one stays, as often as before and in order |
| Notifications.ArchiveKeepsViews | components/notifications/notifications-list.tsx:101-117 | within one list, archiving commutes with the list's filter: the list shows its former entries minus the archived id, in order |
| Notifications.ArchivedIsInNoView | components/notifications/notifications-list.tsx:101-117 | within one list, an archived id is no longer shown, whatever the list's category |
| Notifications.EmptyStateIff | components/notifications/notifications-list.tsx:189 | the empty panel shows iff no notification is in the list's category |
| Notifications.EmptyText | components/notifications/notifications-list.tsx:192 | "No notifications" iff the all list, else the category message |
| Collection.Delete | components/profile/book-collection-grid.tsx:114-115 | books with the id are removed; each other book stays, as often as before and in order |
| Collection.DeleteCount | components/profile/book-collection-grid.tsx:114-115 | with unique ids the count drops by one iff the id was present |
| Collection.FilterByIdCount | components/profile/book-collection-grid.tsx:115 | the induction behind DeleteCount, on the id filter itself |
| Collection.DeleteGoesById | components/profile/book-collection-grid.tsx:69-115 | deleting id 8 keeps id 6 although both are "The Midnight Library" |
| Collection.ToggleFavorite | components/profile/book-collection-grid.tsx:110-112 | an absent id is appended, a present one removed entirely; other ids unaffected; no duplicates are introduced |
| Collection.ToggleAbsentTwice | components/profile/book-collection-grid.tsx:111 | toggling an absent id twice restores the list exactly |
| Collection.TogglePresentTwice | components/profile/book-collection-grid.tsx:111 | toggling a present id twice keeps the same set of favourites |
| Collection.DeleteBook | components/profile/book-collection-grid.tsx:114-120 | deleting never touches the favourites |
| Collection.ClickHeart | components/profile/book-collection-grid.tsx:178 | the heart toggles the favourite and never touches the books |
| Collection.HeartClass | components/profile/book-collection-grid.tsx:182 | the heart is filled red iff the book is a favourite, gray otherwise |
| Collection.InitialHeartsAreEmpty | components/profile/book-collection-grid.tsx:107 | on first render every heart is gray |
| Collection.ClickHeartFlipsOneHeart | components/profile/book-collection-grid.tsx:178-182 | a click flips that book's heart and leaves every other heart as it was |
| Collection.StartEdit | components/profile/book-collection-grid.tsx:122-124 | Edit records which book is edited and keeps the books and the favourites |
| Collection.SaveEdit | components/profile/book-collection-grid.tsx:274-276 | "Save Changes" leaves books and favourites unchanged |
| Collection.EditSavesNothing | components/profile/book-collection-grid.tsx:274-276 | opening the edit dialog and saving leaves the books, their order and every heart as they were |
| Collection.StatusColor | components/profile/book-collection-grid.tsx:134-143 | "Available" green, "Borrowed" orange, anything else gray |
| Collection.DeletingLastBookShowsEmpty | components/profile/book-collection-grid.tsx:305 | deleting the only book brings up the empty state |
| Profile.InitialSettingsValues | components/profile/user-profile.tsx:28-35 | every setting starts true except verifiedOnly |
| Profile.Toggle | components/profile/user-profile.tsx:49-54 | toggling negates exactly that key and keeps the other five |
| Profile.ToggleTwice | components/profile/user-profile.tsx:49-54 | toggling a key twice restores the settings |
| Profile.TogglesCommute | components/profile/user-profile.tsx:49-54 | toggles on two keys commute |
| Profile.Apply | components/profile/user-profile.tsx:38-127 | Save and Cancel both only close the dialog; Save Settings changes nothing; a toggle changes only the settings |
| Profile.StatsNeverChange | components/profile/user-profile.tsx:16-25 | no sequence of events changes the statistics |
| Profile.ShowsMockStats | components/profile/user-profile.tsx:16-25 | from first render, the page always shows the initial mock statistics |
| Profile.SettingsOnlyChangeByToggle | components/profile/user-profile.tsx:42-54 | a run without toggles keeps the settings |
| Profile.SettingIsParityOfToggles | components/profile/user-profile.tsx:49-54 | after any run a switch shows its starting value flipped once per toggle of that switch |
| Profile.VerifiedOnlyAfterRun | components/profile/user-profile.tsx:28-54 | from first render, "verified users only" is on iff toggled an odd number of times |

## Left out

- Toasts. Every `toast(...)` call goes to an external hook. A submit is modelled as accepted or rejected. The message and contact buttons on requests and loans only toast and are modelled as changing nothing. So is the catalog's `handleNotify`, which appears only inside `BookCard.Click`. The collection grid's Share button (`handleShare`, components/profile/book-collection-grid.tsx:126-133) only toasts and is not modelled.
- Navigation. `router.push` becomes a `redirected` flag on the add-book page. The notification click handler (`window.location.href`) is not modelled.
- The timer. The one-second `setTimeout` on add-book becomes a count of scheduled completions and a `Complete` step. Its delay is not modelled.
- AddBook.Submit: like the handler, it has no guard against submitting while `isSubmitting` is true. The model does not use the fact that the disabled submit button prevents this.
- DetailModal.Submit: it is defined whether or not the modal is open. The model does not use the fact that the send button is visible only while the dialog is open.
- Separate lists per tab. The notifications page mounts one list per tab (app/notifications/page.tsx:25-39), each with its own `useState` copy of the feed (components/notifications/notifications-list.tsx:98). The model describes one list. Mark-as-read or archive in one tab never reaches another, and no property here relates two tabs' lists.
- Rendering. The JSX layout, Tailwind classes other than the status colours and heart fill, images, avatars and icons (`getStatusIcon`, `getNotificationIcon`) are not modelled.
- Float values. Book and user ratings, the star count `Math.floor(book.rating)` and the `progress.toFixed(0)` caption are not modelled. `progress` and `daysRemaining` are unbounded integers.
- BookCard.HeartAfterClicks: it holds for one mount of a card. The catalog maps the filtered list to keyed cards (components/books/book-catalog.tsx:180), so a card that a filter removes and brings back remounts with its heart empty. The model does not track card mounts.
- Dead UI. The never-opened confirmation AlertDialog and the unused `expandedRequest` state in the requests list are not modelled. Neither is the requests list's "No requests yet" panel. The collection's edit-dialog inputs are uncontrolled and never read, so they are not modelled either.
- Unicode. `toLowerCase` is modelled for ASCII letters only. `trim` removes only space, tab, line feed, vertical tab, form feed and carriage return.
- Overdue loans and negative day counts. The data sets `daysRemaining` negative for status "overdue" by hand, and no code enforces this, so the model does not assume it.
- Marketing and shell components (hero, footer, call-to-action, features grid, navigation, theme toggle) and the page wrappers. The catalog page's initial filter state is kept, in `SearchFilters.InitialIsCleared`.
