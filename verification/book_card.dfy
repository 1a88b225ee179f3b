/** One catalog card: its badges, its favourite heart and the primary
    button that either starts a request or registers a "notify me". */
module BookCard {
  import opened Common
  import opened Catalog

  /** The two callbacks the primary button can invoke. */
  datatype CardAction = RequestBook | NotifyMe

  /** Which callback the primary button invokes. */
  function PrimaryAction(b: Book): (a: CardAction)
    ensures a == RequestBook <==> b.availability == "available"
    ensures a == NotifyMe <==> b.availability != "available"
  {
    if b.availability == "available" then RequestBook else NotifyMe
  }

  /** The primary button's caption. */
  function ButtonLabel(b: Book): (r: string)
    ensures r == "Request Book" <==> PrimaryAction(b) == RequestBook
    ensures r == "Notify Me" <==> PrimaryAction(b) == NotifyMe
  {
    if b.availability == "available" then "Request Book" else "Notify Me"
  }

  /** A click on the primary button, as seen by the catalog page: an
      available book is selected and its modal opened; any other book
      leaves the page as it was, since `handleNotify` only shows a toast. */
  function Click(st: Selection, b: Book): (r: Selection)
    ensures b.availability == "available" ==> r == Selection(Some(b), true)
    ensures b.availability != "available" ==> r == st
  {
    match PrimaryAction(b)
    case RequestBook => HandleRequest(st, b)
    case NotifyMe => st
  }

  /** The condition badge: "like-new" is spelled out, the rest verbatim. */
  function ConditionLabel(condition: string): (r: string)
    ensures condition == "like-new" ==> r == "Like New"
    ensures condition != "like-new" ==> r == condition
  {
    if condition == "like-new" then "Like New" else condition
  }

  /** Two distinct conditions share a badge only for "like-new" and the
      literal "Like New". */
  lemma ConditionLabelCollisions(c1: string, c2: string)
    requires c1 != c2 && ConditionLabel(c1) == ConditionLabel(c2)
    ensures {c1, c2} == {"like-new", "Like New"}
  {
  }

  /** The type badge: "Borrow" iff the book is lent by borrowing. */
  function TypeLabel(b: Book): (r: string)
    ensures r == "Borrow" <==> b.kind == Borrow
    ensures r == "Swap" <==> b.kind != Borrow
  {
    KindWord(b.kind)
  }

  /** The availability badge's text. */
  function AvailabilityLabel(b: Book): (r: string)
    ensures r == "Available Now" <==> b.availability == "available"
    ensures r == "Unavailable" <==> b.availability != "available"
  {
    if b.availability == "available" then "Available Now" else "Unavailable"
  }

  /** The card's own state: only the favourite heart. */
  datatype CardState = CardState(isFavorited: bool)

  const InitialCard := CardState(false)

  function ToggleHeart(st: CardState): (r: CardState)
    ensures r.isFavorited != st.isFavorited
  {
    CardState(!st.isFavorited)
  }

  /** Two clicks on the heart restore the card. */
  lemma ToggleHeartTwice(st: CardState)
    ensures ToggleHeart(ToggleHeart(st)) == st
  {
  }

  /** The card after n clicks on its heart. */
  function Clicks(st: CardState, n: nat): CardState
    decreases n
  {
    if n == 0 then st else Clicks(ToggleHeart(st), n - 1)
  }

  /** A card starts unfavourited, so its heart is filled exactly after an
      odd number of clicks. */
  lemma {:induction false} HeartAfterClicks(st: CardState, n: nat)
    ensures Clicks(st, n).isFavorited == (st.isFavorited != (n % 2 == 1))
    ensures Clicks(InitialCard, n).isFavorited <==> n % 2 == 1
    decreases n
  {
    if n > 0 {
      HeartAfterClicks(ToggleHeart(st), n - 1);
      HeartAfterClicks(ToggleHeart(InitialCard), n - 1);
    }
  }
}
