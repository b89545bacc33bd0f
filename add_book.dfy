/** The add-book page: a draft form, a confirmation popup and the last book added. */
module AddBookPage {
  import opened Options
  import opened Records

  /** The page component's three pieces of state. */
  class AddBook {
    var bookData: BookForm
    var openPopup: bool
    var addedBook: Option<BookForm>

    /** The popup only ever shows with a book to show. */
    ghost predicate Valid()
      reads this
    {
      openPopup ==> addedBook.Some?
    }

    /** The page as first rendered: a blank draft, no popup, nothing added yet. */
    constructor ()
      ensures Valid()
      ensures bookData == BlankForm && !openPopup && addedBook == None
    {
      bookData := BlankForm;
      openPopup := false;
      addedBook := None;
    }

    /** An input event: only the named field of the draft changes. */
    method HandleChange(name: FieldName, value: string)
      requires Valid()
      modifies this
      ensures Valid()
      ensures bookData == WithField(old(bookData), name, value)
      ensures openPopup == old(openPopup) && addedBook == old(addedBook)
    {
      bookData := WithField(bookData, name, value);
    }

    /** Submitting the form sends the draft as it is, without an id. When `addBook`
        succeeds the draft becomes the added book, the popup opens and the form is
        cleared; the server's reply is not used. When it fails nothing changes, so the
        user can retry with the same draft. */
    method HandleSubmit(success: bool) returns (sent: BookForm)
      requires Valid()
      modifies this
      ensures Valid()
      ensures sent == old(bookData)
      ensures success ==> addedBook == Some(sent) && openPopup && bookData == BlankForm
      ensures !success ==>
        bookData == old(bookData) && openPopup == old(openPopup) && addedBook == old(addedBook)
    {
      sent := bookData;
      if success {
        addedBook := Some(sent);
        openPopup := true;
        bookData := BlankForm;
      }
    }

    /** Closing the popup; the navigation back to the dashboard is not modelled. */
    method HandleClose()
      requires Valid()
      modifies this
      ensures Valid()
      ensures !openPopup
      ensures bookData == old(bookData) && addedBook == old(addedBook)
    {
      openPopup := false;
    }
  }
}
