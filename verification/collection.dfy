/** The profile's book collection grid: delete by id, favourite toggling
    on a list of ids, the edit dialog whose save changes nothing, and the
    status colours. */
module Collection {
  import opened Common
  import opened Seqs

  /** A book of the user's own collection (the float rating is not
      modelled). */
  datatype OwnedBook = OwnedBook(
    id: int,
    title: string,
    author: string,
    cover: string,
    status: string,
    condition: string,
    lendingType: string,
    borrows: nat)

  /** The grid's initial records (covers shortened). Ids 6 and 8 share a
      title. */
  const MockCollection: seq<OwnedBook> := [
    OwnedBook(1, "The Great Gatsby", "F. Scott Fitzgerald", "/the-great-gatsby-book.jpg", "Available", "Excellent", "Borrow", 5),
    OwnedBook(2, "Atomic Habits", "James Clear", "/atomic-habits-book.jpg", "Borrowed", "Good", "Swap", 8),
    OwnedBook(3, "Dune", "Frank Herbert", "/dune-book.jpg", "Available", "Like New", "Borrow", 3),
    OwnedBook(4, "To Kill a Mockingbird", "Harper Lee", "/to-kill-a-mockingbird-book.jpg", "Available", "Good", "Swap", 12),
    OwnedBook(5, "Project Hail Mary", "Andy Weir", "/project-hail-mary-book.jpg", "Available", "Excellent", "Borrow", 6),
    OwnedBook(6, "The Midnight Library", "Matt Haig", "/the-midnight-library-book.jpg", "Available", "Good", "Borrow", 4),
    OwnedBook(7, "Where the Crawdads Sing", "Delia Owens", "/book-cover-.jpg", "Available", "Excellent", "Swap", 7),
    OwnedBook(8, "The Midnight Library", "Matt Haig", "/book-cover-.jpg", "Available", "Good", "Borrow", 4)
  ]

  function NotId(id: int): OwnedBook -> bool
  {
    (b: OwnedBook) => b.id != id
  }

  /** `handleDelete`: the books with the id go, the rest stay in order. */
  function Delete(books: seq<OwnedBook>, id: int): (r: seq<OwnedBook>)
    ensures IsSubsequence(r, books)
    ensures forall b :: b in r <==> b in books && b.id != id
    ensures forall b :: multiset(r)[b] == (if b.id != id then multiset(books)[b] else 0)
  {
    Filter(books, NotId(id))
  }

  predicate UniqueIds(books: seq<OwnedBook>)
  {
    forall i, j :: 0 <= i < j < |books| ==> books[i].id != books[j].id
  }

  predicate HasBook(books: seq<OwnedBook>, id: int)
  {
    exists i :: 0 <= i < |books| && books[i].id == id
  }

  /** With unique ids the displayed count drops by one iff the id was
      present, and otherwise stays. */
  lemma DeleteCount(books: seq<OwnedBook>, id: int)
    requires UniqueIds(books)
    ensures |Delete(books, id)| == |books| - (if HasBook(books, id) then 1 else 0)
  {
    FilterByIdCount(books, id);
  }

  /** The induction behind DeleteCount, on the filter itself. */
  lemma {:induction false} FilterByIdCount(books: seq<OwnedBook>, id: int)
    requires UniqueIds(books)
    ensures |Filter(books, NotId(id))| == |books| - (if HasBook(books, id) then 1 else 0)
    decreases |books|
  {
    if |books| > 0 {
      var rest := books[1..];
      assert UniqueIds(rest) by {
        forall i, j | 0 <= i < j < |rest|
          ensures rest[i].id != rest[j].id
        {
          assert rest[i] == books[i + 1] && rest[j] == books[j + 1];
        }
      }
      if books[0].id == id {
        assert forall i :: 0 <= i < |rest| ==> rest[i] == books[i + 1];
        FilterKeepsAll(rest, NotId(id));
        assert HasBook(books, id);
      } else {
        FilterByIdCount(rest, id);
        if HasBook(books, id) {
          var k :| 0 <= k < |books| && books[k].id == id;
          assert rest[k - 1].id == id;
        }
        if HasBook(rest, id) {
          var k :| 0 <= k < |rest| && rest[k].id == id;
          assert books[k + 1].id == id;
        }
      }
    }
  }

  /** Deletion goes by id, not by title: removing id 8 keeps id 6 although
      both are "The Midnight Library". */
  lemma DeleteGoesById()
    ensures MockCollection[5].id == 6 && MockCollection[7].id == 8
    ensures MockCollection[5].title == MockCollection[7].title
    ensures MockCollection[5] in Delete(MockCollection, 8)
    ensures MockCollection[7] !in Delete(MockCollection, 8)
  {
  }

  function NotFavorite(id: int): int -> bool
  {
    x => x != id
  }

  /** `toggleFavorite`: an absent id is appended; a present one is removed
      everywhere it occurs. */
  function ToggleFavorite(favs: seq<int>, id: int): (r: seq<int>)
    ensures id in r <==> id !in favs
    ensures forall x :: x != id ==> (x in r <==> x in favs)
    ensures id !in favs ==> r == favs + [id]
    ensures NoDuplicates(favs) ==> NoDuplicates(r)
  {
    if id in favs then
      var r := Filter(favs, NotFavorite(id));
      FilterNoDuplicates(favs, NotFavorite(id));
      assert forall x :: x != id ==> (x in r <==> x in favs) by {
        forall x | x != id
          ensures x in r <==> x in favs
        {
          if x in favs {
            var i :| 0 <= i < |favs| && favs[i] == x;
          }
        }
      }
      r
    else
      favs + [id]
  }

  /** Toggling an absent id twice restores the list exactly. */
  lemma ToggleAbsentTwice(favs: seq<int>, id: int)
    requires id !in favs
    ensures ToggleFavorite(ToggleFavorite(favs, id), id) == favs
  {
    assert id in favs + [id];
    FilterAppend(favs, [id], NotFavorite(id));
    FilterKeepsAll(favs, NotFavorite(id));
  }

  /** Toggling a present id twice keeps the same favourites, though the id
      moves to the end. */
  lemma TogglePresentTwice(favs: seq<int>, id: int)
    requires id in favs
    ensures forall x :: x in ToggleFavorite(ToggleFavorite(favs, id), id) <==> x in favs
  {
  }

  /** The grid: the books, the favourite ids and the book being edited. */
  datatype Grid = Grid(books: seq<OwnedBook>, favorites: seq<int>, editing: Option<int>)

  const InitialGrid := Grid(MockCollection, [], None)

  /** A delete touches only the books, never the favourites. */
  function DeleteBook(g: Grid, id: int): (r: Grid)
    ensures r.books == Delete(g.books, id)
    ensures r.favorites == g.favorites && r.editing == g.editing
  {
    g.(books := Delete(g.books, id))
  }

  function ClickHeart(g: Grid, id: int): (r: Grid)
    ensures r.favorites == ToggleFavorite(g.favorites, id)
    ensures r.books == g.books && r.editing == g.editing
  {
    g.(favorites := ToggleFavorite(g.favorites, id))
  }

  /** `handleEdit` only remembers which book the dialog is for. */
  function StartEdit(g: Grid, id: int): (r: Grid)
    ensures r.editing == Some(id)
    ensures r.books == g.books && r.favorites == g.favorites
  {
    g.(editing := Some(id))
  }

  /** "Save Changes" in the edit dialog shows a toast and writes nothing. */
  function SaveEdit(g: Grid): (r: Grid)
    ensures r.books == g.books && r.favorites == g.favorites
  {
    g
  }

  /** Whether a card's heart is filled. */
  predicate IsFavorite(g: Grid, id: int)
  {
    id in g.favorites
  }

  /** The heart icon's classes: filled red for a favourite, gray outline
      otherwise. */
  function HeartClass(g: Grid, id: int): (r: string)
    ensures r == "fill-red-500 text-red-500" <==> IsFavorite(g, id)
    ensures r == "text-gray-400" <==> !IsFavorite(g, id)
  {
    if id in g.favorites then "fill-red-500 text-red-500" else "text-gray-400"
  }

  /** A fresh grid shows every heart unfilled. */
  lemma InitialHeartsAreEmpty(id: int)
    ensures HeartClass(InitialGrid, id) == "text-gray-400"
  {
  }

  /** A click on a heart flips that heart's fill and no other. */
  lemma ClickHeartFlipsOneHeart(g: Grid, id: int, other: int)
    ensures IsFavorite(ClickHeart(g, id), id) <==> !IsFavorite(g, id)
    ensures other != id ==> HeartClass(ClickHeart(g, other), id) == HeartClass(g, id)
  {
  }

  /** Opening the edit dialog and saving it leaves the grid as it was:
      the same books, in the same order, and the same hearts. */
  lemma EditSavesNothing(g: Grid, id: int, x: int)
    ensures SaveEdit(StartEdit(g, id)).books == g.books
    ensures SaveEdit(StartEdit(g, id)).favorites == g.favorites
    ensures HeartClass(SaveEdit(StartEdit(g, id)), x) == HeartClass(g, x)
  {
  }

  /** The status badge colour class. */
  function StatusColor(status: string): (r: string)
    ensures status == "Available" ==> r == "bg-green-100 text-green-800"
    ensures status == "Borrowed" ==> r == "bg-orange-100 text-orange-800"
    ensures status != "Available" && status != "Borrowed" ==> r == "bg-gray-100 text-gray-800"
  {
    match status
    case "Available" => "bg-green-100 text-green-800"
    case "Borrowed" => "bg-orange-100 text-orange-800"
    case _ => "bg-gray-100 text-gray-800"
  }

  /** The "No books yet" panel. */
  predicate ShowsEmptyState(g: Grid)
  {
    |g.books| == 0
  }

  /** Deleting the only book of a one-book grid empties it. */
  lemma DeletingLastBookShowsEmpty(g: Grid)
    requires |g.books| == 1
    ensures ShowsEmptyState(DeleteBook(g, g.books[0].id))
  {
    DeleteCount(g.books, g.books[0].id);
  }
}
