/** The edit dialog: a draft filled in from the selected book, edited one input at a
    time, and saved as the book with the draft spread over it. */
module EditModal {
  import opened Options
  import opened Records

  /** `o || fallback` for an optional string: one of the two operands, and truthy
      exactly when one of them is. */
  function TextOr(o: Option<string>, fallback: string): (r: string)
    ensures r == fallback || o == Some(r)
    ensures r != "" <==> (o.Some? && o.value != "") || fallback != ""
  {
    if o.Some? && o.value != "" then o.value else fallback
  }

  /** `v || fallback` for a JavaScript value: one of the two operands, and truthy
      exactly when one of them is. */
  function ValueOr(v: Value, fallback: Value): (r: Value)
    ensures r == v || r == fallback
    ensures !Falsy(r) <==> !Falsy(v) || !Falsy(fallback)
  {
    if Falsy(v) then fallback else v
  }

  /** The draft the dialog's effect builds from `book`: each field copied when truthy,
      otherwise '' (and 'Available' for the status). */
  function FormFromBook(b: Book): (f: BookForm)
    ensures forall n :: n != Status ==>
      FormField(f, n) == if Falsy(BookField(b, n)) then Text("") else BookField(b, n)
    ensures FormField(f, Status) ==
      if Falsy(BookField(b, Status)) then Text("Available") else BookField(b, Status)
  {
    BookForm(
      TextOr(b.title, ""),
      TextOr(b.author, ""),
      TextOr(b.genre, ""),
      ValueOr(b.year, Text("")),
      TextOr(b.status, "Available"))
  }

  /** `{ ...book, ...formData }`: the book's id and other fields, with all five form
      fields taken from the draft. */
  function Merge(b: Book, f: BookForm): (r: Book)
    ensures r.id == b.id && r.extra == b.extra
    ensures forall n :: BookField(r, n) == FormField(f, n)
  {
    b.(title := Some(f.title), author := Some(f.author), genre := Some(f.genre),
       year := f.year, status := Some(f.status))
  }

  /** Saving the dialog untouched gives back the same book when all five of its form
      fields are truthy. */
  lemma SaveUntouchedKeepsBook(b: Book)
    requires forall n :: !Falsy(BookField(b, n))
    ensures Merge(b, FormFromBook(b)) == b
  {
    assert !Falsy(BookField(b, Title)) && !Falsy(BookField(b, Author));
    assert !Falsy(BookField(b, Genre)) && !Falsy(BookField(b, Year));
    assert !Falsy(BookField(b, Status));
  }

  /** Saving the dialog untouched fills a missing status with 'Available' and every
      other missing field with ''. */
  lemma SaveUntouchedFillsDefaults(b: Book)
    ensures Falsy(BookField(b, Status)) ==> Merge(b, FormFromBook(b)).status == Some("Available")
    ensures b.title.None? ==> Merge(b, FormFromBook(b)).title == Some("")
    ensures b.year.Undefined? || b.year.Null? ==> Merge(b, FormFromBook(b)).year == Text("")
  {
  }

  /** Editing one input and saving changes that field of the record and nothing else. */
  lemma EditOneFieldThenSave(b: Book, f: BookForm, name: FieldName, value: string)
    ensures Merge(b, WithField(f, name, value)).id == b.id
    ensures Merge(b, WithField(f, name, value)).extra == b.extra
    ensures BookField(Merge(b, WithField(f, name, value)), name) == Text(value)
    ensures forall n :: n != name ==>
      BookField(Merge(b, WithField(f, name, value)), n) == BookField(Merge(b, f), n)
  {
  }

  /** The `editBook(id, body)` call the dialog makes. */
  datatype EditRequest = EditRequest(id: Value, body: Book)

  /** Which of the parent's callbacks the dialog calls after the request settles. */
  datatype Notification = EditSucceeded(updated: Book) | EditFailed

  /** The dialog component: its `book` prop and its `formData` state. */
  class EditBookModal {
    var book: Option<Book>
    var formData: BookForm

    /** Mounting: `formData` starts as the blank draft and the effect on `book` runs. */
    constructor (initial: Option<Book>)
      ensures book == initial
      ensures formData == if initial.Some? then FormFromBook(initial.value) else BlankForm
    {
      book := initial;
      formData := BlankForm;
      if initial.Some? {
        formData := FormFromBook(initial.value);
      }
    }

    /** The `book` prop changes: the effect refills the draft from a book and leaves
        it alone when the prop becomes null. */
    method SyncBook(b: Option<Book>)
      modifies this
      ensures book == b
      ensures formData == if b.Some? then FormFromBook(b.value) else old(formData)
    {
      book := b;
      if b.Some? {
        formData := FormFromBook(b.value);
      }
    }

    /** An input event: only the named field of the draft changes. */
    method HandleChange(name: FieldName, value: string)
      modifies this
      ensures formData == WithField(old(formData), name, value)
      ensures book == old(book)
    {
      formData := WithField(formData, name, value);
    }

    /** Whether the component renders anything: with no book it returns null, so
        none of its buttons exist. */
    predicate Renders()
      reads this
    {
      book.Some?
    }

    /** Save Changes: sends the merged record under the book's id, then hands that same
        merged record (not the server's reply) to `onSuccess`, or calls `onError`. */
    method HandleSubmit(success: bool) returns (request: EditRequest, notification: Notification)
      requires Renders()
      ensures request.id == book.value.id
      ensures request.body == Merge(book.value, formData)
      ensures success ==> notification == EditSucceeded(request.body)
      ensures !success ==> notification == EditFailed
    {
      var updatedData := Merge(book.value, formData);
      request := EditRequest(book.value.id, updatedData);
      if success {
        notification := EditSucceeded(updatedData);
      } else {
        notification := EditFailed;
      }
    }
  }
}
