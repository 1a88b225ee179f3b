/** The filter bar: select handlers with their "any" sentinels, the
    Clear button and the "has active filters" test that shows it. */
module SearchFilters {
  import opened Catalog

  /** The select values that stand for "no restriction". */
  const AllGenres := "all-genres"
  const AnyLocation := "any-location"
  const AnyCondition := "any-condition"

  /** What a select handler stores: its sentinel becomes "", anything else
      is kept verbatim. */
  function FromSelect(value: string, sentinel: string): (r: string)
    ensures value == sentinel ==> r == ""
    ensures value != sentinel ==> r == value
  {
    if value == sentinel then "" else value
  }

  /** What a select shows for a stored value: `stored || sentinel`. */
  function Shown(stored: string, sentinel: string): (r: string)
    ensures stored == "" ==> r == sentinel
    ensures stored != "" ==> r == stored
  {
    if stored == "" then sentinel else stored
  }

  /** The search term together with the filter record. */
  datatype Query = Query(search: string, filters: Filters)

  /** The default state of the books page (app/books/page.tsx). */
  const InitialQuery := Query("", Filters("", "all", "", ""))

  /** Typing in the search box stores the text verbatim. */
  function ChangeSearch(q: Query, term: string): (r: Query)
    ensures r.search == term && r.filters == q.filters
  {
    q.(search := term)
  }

  function ChangeGenre(q: Query, value: string): (r: Query)
    ensures r.filters.genre == FromSelect(value, AllGenres)
    ensures r == q.(filters := q.filters.(genre := r.filters.genre))
  {
    q.(filters := q.filters.(genre := FromSelect(value, AllGenres)))
  }

  /** Availability has no sentinel: the value is stored as it comes. */
  function ChangeAvailability(q: Query, value: string): (r: Query)
    ensures r.filters.availability == value
    ensures r == q.(filters := q.filters.(availability := r.filters.availability))
  {
    q.(filters := q.filters.(availability := value))
  }

  function ChangeLocation(q: Query, value: string): (r: Query)
    ensures r.filters.location == FromSelect(value, AnyLocation)
    ensures r == q.(filters := q.filters.(location := r.filters.location))
  {
    q.(filters := q.filters.(location := FromSelect(value, AnyLocation)))
  }

  function ChangeCondition(q: Query, value: string): (r: Query)
    ensures r.filters.condition == FromSelect(value, AnyCondition)
    ensures r == q.(filters := q.filters.(condition := r.filters.condition))
  {
    q.(filters := q.filters.(condition := FromSelect(value, AnyCondition)))
  }

  /** The Clear button: empty search, every filter at its wildcard. */
  function Clear(q: Query): (r: Query)
    ensures r.search == "" && r.filters == Filters("", "all", "", "")
  {
    Query("", Filters("", "all", "", ""))
  }

  /** Whether the Clear button is shown. */
  predicate HasActiveFilters(q: Query)
  {
    q.search != "" || q.filters.genre != "" || q.filters.availability != "all"
    || q.filters.location != "" || q.filters.condition != ""
  }

  /** The filters are active exactly when the query differs from what Clear
      produces; in particular Clear always hides its own button. */
  lemma ActiveIffNotCleared(q: Query)
    ensures HasActiveFilters(q) <==> q != Clear(q)
    ensures !HasActiveFilters(Clear(q))
  {
  }

  /** The page starts in the cleared state. */
  lemma InitialIsCleared(q: Query)
    ensures InitialQuery == Clear(q)
  {
  }

  /** When no filter is active, the catalog shows every book. */
  lemma InactiveShowsAll(books: seq<Book>, q: Query)
    requires !HasActiveFilters(q)
    ensures FilteredBooks(books, q.search, q.filters) == books
  {
    NoFilterShowsAll(books, "");
  }

  /** A stored filter never holds a sentinel: the handlers map them to "". */
  predicate NoSentinelStored(q: Query)
  {
    q.filters.genre != AllGenres && q.filters.location != AnyLocation && q.filters.condition != AnyCondition
  }

  lemma HandlersStoreNoSentinel(q: Query, value: string)
    requires NoSentinelStored(q)
    ensures NoSentinelStored(ChangeGenre(q, value))
    ensures NoSentinelStored(ChangeAvailability(q, value))
    ensures NoSentinelStored(ChangeLocation(q, value))
    ensures NoSentinelStored(ChangeCondition(q, value))
    ensures NoSentinelStored(ChangeSearch(q, value))
    ensures NoSentinelStored(Clear(q))
  {
  }

  /** Feeding each select's displayed value back into its handler leaves
      the query unchanged (a stored "" shows the sentinel, which maps
      back to ""). */
  lemma SelectRoundTrip(q: Query)
    requires NoSentinelStored(q)
    ensures ChangeGenre(q, Shown(q.filters.genre, AllGenres)) == q
    ensures ChangeAvailability(q, q.filters.availability) == q
    ensures ChangeLocation(q, Shown(q.filters.location, AnyLocation)) == q
    ensures ChangeCondition(q, Shown(q.filters.condition, AnyCondition)) == q
  {
  }

  /** A location choice makes the filters active, yet the catalog result
      does not change: the control is offered but ignored. */
  lemma LocationActivatesButIsIgnored(books: seq<Book>, q: Query, value: string)
    requires value != AnyLocation && value != ""
    ensures HasActiveFilters(ChangeLocation(q, value))
    ensures FilteredBooks(books, q.search, ChangeLocation(q, value).filters) == FilteredBooks(books, q.search, q.filters)
  {
    LocationIsIgnored(books, q.search, q.filters, value);
  }
}
