/** The catalog browser: the book list, the conjunctive filter over it,
    the result-count label and the request/notify handlers the cards call. */
module Catalog {
  import opened Common
  import opened Text
  import opened Seqs

  /** A catalog entry. The float rating is not modelled. */
  datatype Book = Book(
    id: int,
    title: string,
    author: string,
    genre: string,
    condition: string,
    availability: string,
    owner: string,
    reviews: nat,
    location: string,
    image: string,
    kind: RequestKind)

  /** The filter record the filter bar edits. */
  datatype Filters = Filters(genre: string, availability: string, location: string, condition: string)

  /** Case-insensitive substring search on title or author; the empty
      term matches everything. */
  predicate MatchesSearch(b: Book, term: string)
  {
    term == "" || Includes(Lower(b.title), Lower(term)) || Includes(Lower(b.author), Lower(term))
  }

  predicate MatchesGenre(b: Book, f: Filters) { f.genre == "" || b.genre == f.genre }

  predicate MatchesAvailability(b: Book, f: Filters) { f.availability == "all" || b.availability == f.availability }

  predicate MatchesCondition(b: Book, f: Filters) { f.condition == "" || b.condition == f.condition }

  /** The filter predicate; note that `f.location` plays no part. */
  predicate Matches(b: Book, term: string, f: Filters)
  {
    MatchesSearch(b, term) && MatchesGenre(b, f) && MatchesAvailability(b, f) && MatchesCondition(b, f)
  }

  function Matcher(term: string, f: Filters): Book -> bool
  {
    b => Matches(b, term, f)
  }

  /** The books shown for a search term and a filter record. */
  function FilteredBooks(books: seq<Book>, term: string, f: Filters): (r: seq<Book>)
    ensures IsSubsequence(r, books)
    ensures forall b :: b in r <==> b in books && Matches(b, term, f)
    ensures forall b :: multiset(r)[b] == (if Matches(b, term, f) then multiset(books)[b] else 0)
  {
    Filter(books, Matcher(term, f))
  }

  /** The filter never adds books: the result is no longer than the list. */
  lemma FilteredIsShorter(books: seq<Book>, term: string, f: Filters)
    ensures |FilteredBooks(books, term, f)| <= |books|
  {
    SubsequenceIsShorter(FilteredBooks(books, term, f), books);
  }

  /** The lowercased term occurs somewhere in the lowercased text. */
  ghost predicate ContainsIgnoringCase(text: string, term: string)
  {
    exists i :: OccursAt(Lower(text), Lower(term), i)
  }

  /** The filter, stated without the executable substring search: a book
      is kept iff the term is empty or occurs (ignoring case) in its title
      or author, and each of genre, availability and condition is either
      its wildcard or exactly the book's value. */
  lemma MatchesIff(b: Book, term: string, f: Filters)
    ensures Matches(b, term, f) <==>
      && (term == "" || ContainsIgnoringCase(b.title, term) || ContainsIgnoringCase(b.author, term))
      && (f.genre == "" || b.genre == f.genre)
      && (f.availability == "all" || b.availability == f.availability)
      && (f.condition == "" || b.condition == f.condition)
  {
    IncludesIff(Lower(b.title), Lower(term));
    IncludesIff(Lower(b.author), Lower(term));
  }

  /** With no search term and every filter at its wildcard, every book is
      shown, whatever the location filter holds. */
  lemma NoFilterShowsAll(books: seq<Book>, location: string)
    ensures FilteredBooks(books, "", Filters("", "all", location, "")) == books
  {
    FilterKeepsAll(books, Matcher("", Filters("", "all", location, "")));
  }

  /** The location filter has no effect on the result. */
  lemma LocationIsIgnored(books: seq<Book>, term: string, f: Filters, location: string)
    ensures FilteredBooks(books, term, f.(location := location)) == FilteredBooks(books, term, f)
  {
    FilterCongruent(books, Matcher(term, f.(location := location)), Matcher(term, f));
  }

  /** The "No books found" panel is shown iff nothing matched. */
  predicate ShowsEmptyPanel(books: seq<Book>, term: string, f: Filters)
  {
    |FilteredBooks(books, term, f)| == 0
  }

  lemma EmptyPanelIff(books: seq<Book>, term: string, f: Filters)
    ensures ShowsEmptyPanel(books, term, f) <==> forall i :: 0 <= i < |books| ==> !Matches(books[i], term, f)
  {
    FilterEmptyIff(books, Matcher(term, f));
  }

  /** The results header: the count, then "book" or "books", then "found". */
  function ResultLabel(count: nat): (r: string)
    ensures StartsWith(r, Decimal(count))
    ensures EndsWith(r, " book found") <==> count == 1
    ensures EndsWith(r, " books found") <==> count != 1
    ensures |r| == |Decimal(count)| + (if count == 1 then |" book found"| else |" books found"|)
  {
    var n := Decimal(count);
    var plural := if count != 1 then "s" else "";
    var r := n + " book" + plural + " found";
    var suffix := if count == 1 then " book found" else " books found";
    assert " book" + plural + " found" == suffix;
    assert r == n + suffix;
    ConcatParts(n, suffix);
    assert count == 1 ==> n == "1" && r == "1 book found";
    assert count != 1 ==> r[|r| - 11] == 'b';
    r
  }

  /** What the catalog page remembers about a clicked card. */
  datatype Selection = Selection(selected: Option<Book>, modalOpen: bool)

  /** No book selected, detail modal closed. */
  const InitialSelection := Selection(None, false)

  /** `handleRequest`: select the book and open the detail modal. */
  function HandleRequest(st: Selection, b: Book): (r: Selection)
    ensures r.selected == Some(b) && r.modalOpen
  {
    Selection(Some(b), true)
  }
}
