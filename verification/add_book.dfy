/** The add-book form: field edits, the required-field check on submit,
    the submitting flag and the simulated completion that redirects. */
module AddBook {
  import opened Text

  datatype BookForm = BookForm(
    title: string,
    author: string,
    isbn: string,
    genre: string,
    condition: string,
    description: string,
    lendingType: string,
    borrowDuration: string)

  /** The form as the page first renders it. */
  const DefaultForm := BookForm("", "", "", "", "good", "", "borrow", "14")

  /** The `name` under which a control writes into the form. */
  datatype Field = Title | Author | Isbn | Genre | Condition | Description | LendingType | BorrowDuration

  function Get(form: BookForm, f: Field): string
  {
    match f
    case Title => form.title
    case Author => form.author
    case Isbn => form.isbn
    case Genre => form.genre
    case Condition => form.condition
    case Description => form.description
    case LendingType => form.lendingType
    case BorrowDuration => form.borrowDuration
  }

  /** Forms that agree on every field are the same form. */
  lemma FormExtensional(a: BookForm, b: BookForm)
    requires forall f :: Get(a, f) == Get(b, f)
    ensures a == b
  {
    assert Get(a, Title) == Get(b, Title) && Get(a, Author) == Get(b, Author);
    assert Get(a, Isbn) == Get(b, Isbn) && Get(a, Genre) == Get(b, Genre);
    assert Get(a, Condition) == Get(b, Condition) && Get(a, Description) == Get(b, Description);
    assert Get(a, LendingType) == Get(b, LendingType) && Get(a, BorrowDuration) == Get(b, BorrowDuration);
  }

  /** `{ ...prev, [name]: value }`, shared by `handleInputChange` and
      `handleSelectChange`: the named field takes the value, the others
      keep theirs. */
  function Set(form: BookForm, f: Field, value: string): (r: BookForm)
    ensures Get(r, f) == value
    ensures forall g :: g != f ==> Get(r, g) == Get(form, g)
  {
    match f
    case Title => form.(title := value)
    case Author => form.(author := value)
    case Isbn => form.(isbn := value)
    case Genre => form.(genre := value)
    case Condition => form.(condition := value)
    case Description => form.(description := value)
    case LendingType => form.(lendingType := value)
    case BorrowDuration => form.(borrowDuration := value)
  }

  /** Writing back a field's own value changes nothing. */
  lemma SetOwnValue(form: BookForm, f: Field)
    ensures Set(form, f, Get(form, f)) == form
  {
    FormExtensional(Set(form, f, Get(form, f)), form);
  }

  /** Title, author and genre are filled in; no trimming is done. */
  predicate HasRequiredFields(form: BookForm)
  {
    form.title != "" && form.author != "" && form.genre != ""
  }

  /** The page: the form, the submitting flag, how many simulated
      completions are still scheduled, and whether the page redirected. */
  datatype AddPage = AddPage(form: BookForm, isSubmitting: bool, scheduled: nat, redirected: bool)

  const InitialPage := AddPage(DefaultForm, false, 0, false)

  function ChangeField(p: AddPage, f: Field, value: string): (r: AddPage)
    ensures r.form == Set(p.form, f, value)
    ensures r.isSubmitting == p.isSubmitting && r.scheduled == p.scheduled && r.redirected == p.redirected
  {
    p.(form := Set(p.form, f, value))
  }

  /** `handleSubmit`: with a required field empty nothing changes (an
      empty title or author is already stopped by the browser's `required`
      check, an empty genre by the handler's warning toast); otherwise the page enters the submitting state and
      one completion is scheduled. */
  function Submit(p: AddPage): (r: AddPage)
    ensures r.form == p.form && r.redirected == p.redirected
    ensures p.form.title == "" || p.form.author == "" || p.form.genre == "" ==> r == p
    ensures p.form.title != "" && p.form.author != "" && p.form.genre != "" ==>
      r.isSubmitting && r.scheduled == p.scheduled + 1
  {
    if !HasRequiredFields(p.form) then p
    else p.(isSubmitting := true, scheduled := p.scheduled + 1)
  }

  /** The scheduled completion: the submitting flag drops and the page
      redirects to the catalog. */
  function Complete(p: AddPage): (r: AddPage)
    requires p.scheduled > 0
    ensures !r.isSubmitting && r.redirected
    ensures r.form == p.form && r.scheduled == p.scheduled - 1
  {
    p.(isSubmitting := false, scheduled := p.scheduled - 1, redirected := true)
  }

  /** Cancel redirects at once; it is disabled while submitting. */
  function Cancel(p: AddPage): (r: AddPage)
    requires !p.isSubmitting
    ensures r.redirected && !r.isSubmitting
    ensures r.form == p.form && r.scheduled == p.scheduled
  {
    p.(redirected := true)
  }

  /** Leaving by Cancel lands the page where an accepted submission and
      its completion land it: both end redirected and no longer
      submitting, with the form as it was. The two routes differ only in
      the success toast and the one-second wait. */
  lemma CancelMatchesCompletedSubmit(p: AddPage)
    requires !p.isSubmitting && HasRequiredFields(p.form)
    ensures Complete(Submit(p)) == Cancel(p)
  {
  }

  /** The submit button's caption. */
  function SubmitLabel(p: AddPage): (r: string)
    ensures r == "Adding Book..." <==> p.isSubmitting
    ensures r == "Add Book" <==> !p.isSubmitting
  {
    if p.isSubmitting then "Adding Book..." else "Add Book"
  }

  /** The borrow-duration select is shown for "borrow" and "both" only. */
  predicate ShowsBorrowDuration(form: BookForm)
  {
    form.lendingType == "borrow" || form.lendingType == "both"
  }

  /** Only the lending type decides whether the duration select shows:
      "borrow" and "both" show it, any other value hides it, and edits to
      other fields leave it as it was. */
  lemma BorrowDurationVisibility(form: BookForm, f: Field, value: string)
    ensures ShowsBorrowDuration(Set(form, LendingType, value)) <==> value == "borrow" || value == "both"
    ensures f != LendingType ==> ShowsBorrowDuration(Set(form, f, value)) == ShowsBorrowDuration(form)
  {
  }

  /** A submission is accepted exactly when it schedules a completion. */
  lemma SubmitAcceptedIff(p: AddPage)
    ensures Submit(p).scheduled > p.scheduled <==> HasRequiredFields(p.form)
  {
  }

  /** An accepted submission followed by its completion leaves the form
      alone, clears the submitting flag and redirects. */
  lemma SubmitThenComplete(p: AddPage)
    requires HasRequiredFields(p.form)
    ensures Complete(Submit(p)) == p.(isSubmitting := false, redirected := true)
  {
  }

  /** The page starts invalid: no genre is chosen yet. Its defaults show
      the borrow-duration select. */
  lemma DefaultFormIsIncomplete()
    ensures !HasRequiredFields(DefaultForm)
    ensures ShowsBorrowDuration(DefaultForm)
    ensures Submit(InitialPage) == InitialPage
  {
  }

  /** No trimming: a title of blanks passes, even though it trims to "". */
  lemma BlankTitleIsAccepted(p: AddPage)
    requires p.form.author != "" && p.form.genre != ""
    requires |p.form.title| > 0 && AllSpace(p.form.title)
    ensures IsBlank(p.form.title)
    ensures Submit(p).isSubmitting
  {
    TrimEmptyIff(p.form.title);
  }
}
