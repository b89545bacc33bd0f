# Book catalog dashboard: a verified model

This project models the client-side logic of a small React book catalog. The catalog has
three parts:

- The **dashboard** (`src/pages/Dashboard.js`). It holds the list of books fetched from
  the server. It filters that list by a case-insensitive search on title or author and by
  exact genre and status filters. It shows the result one page at a time. It also runs the
  edit and delete dialogs: a delete removes books by id, and an edit replaces books by id.
- The **edit dialog** (`src/pages/EditBookModal.js`). It fills a five-field draft from the
  selected book, substituting defaults for missing values. It edits the draft one input at
  a time. It saves the book with the draft spread over it (`{...book, ...formData}`).
- The **add page** (`src/pages/AddBook.js`). It holds a draft and sends it to the server.
  After a successful submit it remembers the draft as the added book, opens a
  confirmation popup and clears the form.

Files and modules:

- `options.dfy` (`Options`): `Option`, for fields that may be `null` or `undefined`.
- `text.dfy` (`Text`): `toLowerCase`, restricted to ASCII, and `includes`. `IncludesIff`
  relates `includes` to a reference definition of "occurs at some position".
- `sequences.dfy` (`Sequences`): the array methods `filter`, `map` and `slice`, as
  JavaScript defines them. A slice index may be negative and both ends are clamped. The
  module also defines a page of a list and proves that the pages tile the list.
- `records.dfy` (`Records`): the book record and the form draft. A `Value` type stands
  for the JavaScript values found in `id` and `year`. JavaScript falsiness is written out
  as `Falsy`. `WithField` models the `[name]: value` field update.
- `edit_modal.dfy` (`EditModal`): how the draft is built from a book, the merge, and the
  `EditBookModal` component class.
- `add_book.dfy` (`AddBookPage`): the `AddBook` component class.
- `dashboard.dfy` (`Dashboard`): the filter callback, the by-id updates and the
  `Dashboard` component class. `SaveEdit` connects the edit dialog's save to the
  dashboard's callbacks, wired the way the page wires them.

Each React component is a class. Its `useState` variables are the class fields, and each
handler is a method. A handler runs as one atomic step. The outcome of its server call is
a parameter: a `success` flag, or the sequence that `getBooks` returned. `getBooks`
returns `[]` on any network error.

Where the code does something other than what its names and messages suggest, the model
follows the code:

- One might expect load failures to be reported to the user. In fact `getBooks` catches
  every error and returns `[]`, so the `catch` branch and the error toast in `fetchBooks`
  can never run (`src/services/Api.js:10-13`, `src/pages/Dashboard.js:55-56`).
  `FetchBooks` therefore always stores what it received.
- One might expect a created book to be inserted into the shown list. The add page never
  touches the dashboard's list. The dashboard reloads the list when it mounts
  (`src/pages/Dashboard.js:46-48`). `AddBook` and `Dashboard` share no state.
- One might expect an edit to store the record the server confirmed. The code stores the
  locally merged record and ignores the server's reply. `SaveEdit` states this.
- One might expect the year to be validated before any request. The code only sets the
  `min`/`max` attributes of the input element, so no handler has a year precondition.
- Changing the search term, genre or status does not reset the page index. When the
  filtered list becomes shorter than the page start, the table shows no rows even though
  some books match (`Page`'s contract gives `[]` in that case).

## Model

| member | source | states |
|---|---|---|
| Text.LowerChar | src/pages/Dashboard.js:63 | lower-casing one character leaves no upper-case ASCII letter, changes nothing but an upper-case letter, and maps an upper-case letter to the lower-case letter at the same place in the alphabet |
| Text.LowerStr | src/pages/Dashboard.js:63-65 | `toLowerCase` keeps the length and lower-cases every position |
| Text.LowerStrIdempotent | src/pages/Dashboard.js:63-65 | lower-casing an already lower-cased string changes nothing, so lowering both sides gives a case-insensitive comparison |
| Text.Includes | src/pages/Dashboard.js:64-65 | `includes` finds the empty string in every string, and succeeds only when the needle is no longer than the haystack |
| Text.IncludesWitness | src/pages/Dashboard.js:64-65 | when `includes` succeeds, the needle occurs at the position it returns |
| Text.IncludesAt | src/pages/Dashboard.js:64-65 | when the needle occurs at any position, `includes` succeeds |
| Text.IncludesIff | src/pages/Dashboard.js:64-65 | `includes` holds exactly when the needle occurs somewhere in the string |
| Sequences.Filter | src/pages/Dashboard.js:62-70 | `filter` returns no more elements than it is given; every kept element comes from the input and passes the test; every input element that passes is kept |
| Sequences.FilterConcat | src/pages/Dashboard.js:62-70 | filtering a concatenation concatenates the filtered parts, so relative order is preserved |
| Sequences.FilterKeepsAll | src/pages/Dashboard.js:62-70 | a filter that every element passes returns the input unchanged |
| Sequences.FilterCommutes | src/pages/Dashboard.js:109 | two filters applied in sequence give the same result in either order |
| Sequences.FilterPartition | src/pages/Dashboard.js:109 | the elements a filter keeps plus the elements it drops number the whole input |
| Sequences.Map | src/pages/Dashboard.js:119-123 | `map` keeps the length and applies the callback at every position |
| Sequences.ClampIndex | src/pages/Dashboard.js:81-84 | a slice index becomes a position between 0 and the length; a non-negative index within range is kept, and an index past the end becomes the length |
| Sequences.Slice | src/pages/Dashboard.js:81-84 | `slice` never returns more elements than the array has; with non-negative bounds it is the run from the start to the end, each clamped to the array's length; a non-negative end not past the start gives nothing |
| Sequences.Page | src/pages/Dashboard.js:81-84 | a page has at most page-size elements; it is empty when the page starts at or beyond the end; otherwise it is the run of elements from the page start, cut at the end of the list |
| Sequences.PageBetween | src/pages/Dashboard.js:81-84 | a page is the run of the list between its start and its end, each clamped to the list's length |
| Sequences.EntryOfPage | src/pages/Dashboard.js:81-84 | entry `r` of page `q`, for `r` below the page size, is element `q * size + r` of the list whenever that element exists |
| Sequences.EveryElementOnItsPage | src/pages/Dashboard.js:81-84 | with a positive page size, element `i` appears as entry `i % size` of page `i / size` |
| Sequences.PagesArePrefix | src/pages/Dashboard.js:81-84 | pages 0 to k-1 placed one after another are exactly the first k*size elements, so no element is skipped or shown twice |
| Records.WithField | src/pages/EditBookModal.js:38-41 | an input event gives the named field the input's string, and every other field keeps its value |
| EditModal.FormFromBook | src/pages/EditBookModal.js:26-36 | the draft takes title, author, genre and year from the book when they are truthy, and `''` otherwise; it takes the status when truthy, and 'Available' otherwise |
| EditModal.Merge | src/pages/EditBookModal.js:45 | the merged record keeps the book's id and every field outside the form; each of the five form fields is taken from the draft |
| EditModal.SaveUntouchedKeepsBook | src/pages/EditBookModal.js:26-45 | opening and saving a book whose five fields are all truthy, without changes, gives back the same book |
| EditModal.SaveUntouchedFillsDefaults | src/pages/EditBookModal.js:26-45 | saving without changes writes 'Available' over a falsy status, `''` over a missing title and `''` over a `null` or missing year |
| EditModal.EditOneFieldThenSave | src/pages/EditBookModal.js:38-45 | editing one input and saving changes that field of the saved record only; the id and the other fields stay |
| EditModal.EditBookModal.constructor | src/pages/EditBookModal.js:18-36 | on mount the draft is filled from the book when there is one, and otherwise is the blank draft |
| EditModal.EditBookModal.SyncBook | src/pages/EditBookModal.js:26-36 | when the `book` prop changes, the draft is refilled from a book and left unchanged when the prop becomes null |
| EditModal.EditBookModal.HandleChange | src/pages/EditBookModal.js:38-41 | an input event changes only the named field of the draft |
| EditModal.EditBookModal.HandleSubmit | src/pages/EditBookModal.js:43-54 | submit is possible only while a book is present (with no book the component renders nothing); it sends the merged record under the book's id; on success `onSuccess` receives that same record, and on failure only `onError` is called |
| AddBookPage.AddBook.constructor | src/pages/AddBook.js:25-34 | the page starts with the blank draft (status 'Available'), the popup closed and no added book |
| AddBookPage.AddBook.HandleChange | src/pages/AddBook.js:36-39 | an input event changes only the named field of the draft, and the popup state is kept |
| AddBookPage.AddBook.HandleSubmit | src/pages/AddBook.js:41-58 | the draft is sent as it is, with no id; on success the added book is that pre-reset draft, the popup opens and the form is cleared; on failure the draft, popup and added book are all unchanged; the popup is never open without an added book |
| AddBookPage.AddBook.HandleClose | src/pages/AddBook.js:60-63 | closing the popup sets it to closed and keeps the draft and the added book |
| Dashboard.FieldMatches | src/pages/Dashboard.js:64-65 | a missing title or author never matches the search; a present one matches an empty search; a match needs a field at least as long as the search |
| Dashboard.Matches | src/pages/Dashboard.js:63-69 | a book that passes the filter callback has a title or an author, has the chosen genre when a genre is chosen and the chosen status when a status is chosen; with an empty search and no filters it passes exactly when it has a title or an author |
| Dashboard.FilterBooks | src/pages/Dashboard.js:62-70 | the filtered list is no longer than the list, and every filtered book comes from the list |
| Dashboard.FilterBooksIff | src/pages/Dashboard.js:62-70 | a book is in the filtered list exactly when it is in the list, the lower-cased search occurs in its lower-cased title or author, and each non-empty genre or status filter equals its field |
| Dashboard.FilterBooksKeepsOrder | src/pages/Dashboard.js:62-70 | filtering preserves the books' relative order |
| Dashboard.EmptySearchMatchesIff | src/pages/Dashboard.js:63-69 | with an empty search and no genre or status filter, a book matches exactly when it has a title or an author; a book with neither never matches |
| Dashboard.NeutralFiltersKeepAll | src/pages/Dashboard.js:62-70 | with neutral filters, a list whose every book has a title or an author is shown whole |
| Dashboard.SearchIgnoresCase | src/pages/Dashboard.js:63-64 | a book titled "Dune" matches both the search "DUNE" and the search "dune" |
| Dashboard.RemoveById | src/pages/Dashboard.js:109 | after a delete, no remaining book has the id, every remaining book comes from the list, and every book with another id remains |
| Dashboard.RemoveKeepsOrder | src/pages/Dashboard.js:109 | a delete keeps the remaining books in order |
| Dashboard.RemoveByIdCount | src/pages/Dashboard.js:109 | a delete shortens the list by exactly the number of books with the id |
| Dashboard.DeleteUndefinedKeepsNull | src/pages/Dashboard.js:109 | deleting the book with no id key keeps a book whose id is `null`, since `undefined !== null` |
| Dashboard.RemoveAbsentId | src/pages/Dashboard.js:109 | deleting an id that no book has leaves the list unchanged |
| Dashboard.RemoveShrinksFilteredCount | src/pages/Dashboard.js:106-116 | deleting the one book with an id, when the filters show that book, lowers the filtered count by one |
| Dashboard.ReplaceById | src/pages/Dashboard.js:119-123 | an edit keeps the list's length, puts the updated record wherever the id matches and leaves every other book unchanged |
| Dashboard.ReplaceAbsentId | src/pages/Dashboard.js:119-123 | replacing an id that no book has leaves the list unchanged |
| Dashboard.ReplaceIdempotent | src/pages/Dashboard.js:119-123 | replacing twice with the same record has the same effect as replacing once |
| Dashboard.RemoveAfterReplace | src/pages/Dashboard.js:109-123 | replacing a record and then deleting its id has the same effect as deleting the id |
| Dashboard.Dashboard.constructor | src/pages/Dashboard.js:31-41 | the initial state has no books, empty filters, page 0, 10 rows per page, loading set, both dialogs closed and nothing selected |
| Dashboard.Dashboard.FilteredBooks | src/pages/Dashboard.js:62-70 | a book is in `filteredBooks` exactly when it is in `books` and the current search and filters select it |
| Dashboard.Dashboard.BooksToDisplay | src/pages/Dashboard.js:81-84 | the displayed rows number at most `rowsPerPage`; there are none when the page starts past the filtered list; otherwise they are exactly the filtered books from `page * rowsPerPage` up to the next page start or the end of the list, so row `i` is the filtered book at `page * rowsPerPage + i` |
| Dashboard.Dashboard.FetchBooks | src/pages/Dashboard.js:50-60 | the list is replaced wholesale by the fetched sequence (`[]` after a network error), loading is false afterwards, and nothing else changes |
| Dashboard.Dashboard.SetSearchTerm | src/pages/Dashboard.js:146 | typing a search changes only the search term; the page index is kept |
| Dashboard.Dashboard.SetGenreFilter | src/pages/Dashboard.js:153 | choosing a genre changes only the genre filter; the page index is kept |
| Dashboard.Dashboard.SetStatusFilter | src/pages/Dashboard.js:168 | choosing a status changes only the status filter; the page index is kept |
| Dashboard.Dashboard.HandleChangePage | src/pages/Dashboard.js:72-74 | changing page sets the page index and nothing else |
| Dashboard.Dashboard.HandleChangeRowsPerPage | src/pages/Dashboard.js:76-79 | changing the page size sets it and resets the page index to 0 |
| Dashboard.Dashboard.HandleEditClick | src/pages/Dashboard.js:86-89 | Edit on a row selects that book and opens the edit dialog |
| Dashboard.Dashboard.HandleDeleteClick | src/pages/Dashboard.js:91-94 | Delete on a row selects that book and opens the delete dialog |
| Dashboard.Dashboard.HandleCloseEditModal | src/pages/Dashboard.js:96-99 | closing the edit dialog clears its flag and the selection and leaves the books untouched |
| Dashboard.Dashboard.HandleCloseDeleteModal | src/pages/Dashboard.js:101-104 | closing the delete dialog clears its flag and the selection and leaves the books untouched |
| Dashboard.Dashboard.HandleConfirmDelete | src/pages/Dashboard.js:106-116 | when the delete succeeds, exactly the books with the selected id are removed; when it fails the books are unchanged; either way the dialog closes and the selection is cleared |
| Dashboard.Dashboard.HandleEditSuccess | src/pages/Dashboard.js:118-126 | the updated record replaces every book with its id, the edit dialog closes and the selection is cleared |
| Dashboard.Dashboard.HandleEditError | src/pages/Dashboard.js:128-130 | an edit error changes no state |
| Dashboard.SaveEdit | src/pages/Dashboard.js:274-280 | saving in the edit dialog sends the merged record under the selected id; on success the list receives that local merge, not the server's reply, and the dialog closes; on failure the dashboard is unchanged |

The dialogs are modal, so a handler can fire only in certain states, and the methods
require those states. The row buttons can be clicked only while no dialog is open.
A dialog's close and confirm handlers run only while that dialog is open. The dialogs
render only while a book is selected (`src/pages/Dashboard.js:272-288`). Under these
conditions every handler preserves `Dashboard.Valid`: at most one dialog is open, and an
open dialog has a selected book.

## Left out

- The HTTP calls of `src/services/Api.js`: each request is reduced to its outcome. For
  `getBooks` that is the sequence it returned; for the write calls it is a success flag.
- Asynchronous sequencing and React re-render timing: each handler is one atomic
  transition. A response that arrives after its dialog has closed is not modelled.
- Toasts, `console.error` and the navigation in `handleClose`: none of them changes state
  that the model observes.
- `src/App.js` (routing) and `src/pages/DeleteConfirmationModal.js` (markup that forwards
  `onClose`/`onConfirm`), all JSX layout, MUI components and skeleton rows.
- The commented-out earlier dashboard at the end of `src/pages/Dashboard.js`.
- The year input's `min`/`max` attributes: the browser enforces them, and no handler
  checks them.
- Text.LowerChar: lower-cases ASCII letters only. Full Unicode `toLowerCase` (case
  mappings outside ASCII, length-changing mappings) is not modelled.
- Dashboard.Dashboard.HandleChangeRowsPerPage: takes the already-parsed page size.
  `parseInt` of the option string is not modelled; the options are 10, 25 and 50.
- Records.Value: JavaScript numbers are integers here. `NaN` and fractional years are not
  modelled.
- Object identity: records are compared by value. React's `[book]` effect dependency
  compares by reference. Every time the dashboard shows the edit dialog it mounts it
  afresh, so the difference is not observable here.
- Records.Book: a text field (title, author, genre, status) that is `null` and one that
  is missing are both `None`. They are only read through `?.`, `||` and `===` against a
  string, which treat the two alike. Ids and years keep them apart.
- A title or author that is a number rather than a string would make `toLowerCase` throw.
  Titles and authors are strings or missing in this model.
