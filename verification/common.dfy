/** Small shared vocabulary used by several components of the lending UI. */
module Common {

  /** An optional value: the UI's `undefined`/`null` fields. */
  datatype Option<+T> = None | Some(value: T)

  /** The two kinds of lending request a user can make, and the two
      lending modes a catalog card advertises. */
  datatype RequestKind = Borrow | Swap

  /** The capitalised word the UI shows for a request kind. */
  function KindWord(k: RequestKind): (r: string)
    ensures r == "Borrow" <==> k == Borrow
    ensures r == "Swap" <==> k == Swap
  {
    match k
    case Borrow => "Borrow"
    case Swap => "Swap"
  }
}
