/** The dashboard: the fetched list of books, the search box and the genre and status
    filters, the paginated table, and the edit and delete dialogs around it. */
module Dashboard {
  import opened Options
  import opened Text
  import opened Sequences
  import opened Records
  import opened EditModal

  // ---------------------------------------------------------------------------
  // Search and filters

  /** `field?.toLowerCase().includes(lowerSearch)`: a missing field never matches. */
  predicate FieldMatches(field: Option<string>, lowerSearch: string)
    ensures field.None? ==> !FieldMatches(field, lowerSearch)
    ensures field.Some? && lowerSearch == "" ==> FieldMatches(field, lowerSearch)
    ensures FieldMatches(field, lowerSearch) ==> |lowerSearch| <= |field.value|
  {
    field.Some? && Includes(LowerStr(field.value), lowerSearch)
  }

  /** The callback the dashboard gives to `books.filter`. An empty genre or status
      filter is falsy and lets every book through. */
  predicate Matches(b: Book, search: string, genreFilter: string, statusFilter: string)
    ensures Matches(b, search, genreFilter, statusFilter) ==> b.title.Some? || b.author.Some?
    ensures Matches(b, search, genreFilter, statusFilter) && genreFilter != "" ==> b.genre == Some(genreFilter)
    ensures Matches(b, search, genreFilter, statusFilter) && statusFilter != "" ==> b.status == Some(statusFilter)
    ensures search == "" && genreFilter == "" && statusFilter == "" ==>
      (Matches(b, search, genreFilter, statusFilter) <==> b.title.Some? || b.author.Some?)
  {
    var lowerSearch := LowerStr(search);
    (FieldMatches(b.title, lowerSearch) || FieldMatches(b.author, lowerSearch))
    && (if genreFilter != "" then b.genre == Some(genreFilter) else true)
    && (if statusFilter != "" then b.status == Some(statusFilter) else true)
  }

  function MatchesFilters(search: string, genreFilter: string, statusFilter: string): Book -> bool
  {
    (b: Book) => Matches(b, search, genreFilter, statusFilter)
  }

  /** `filteredBooks`. */
  function FilterBooks(books: seq<Book>, search: string, genreFilter: string, statusFilter: string): (r: seq<Book>)
    ensures |r| <= |books|
    ensures forall i :: 0 <= i < |r| ==> r[i] in books
  {
    Filter(books, MatchesFilters(search, genreFilter, statusFilter))
  }

  /** The search term occurs in the field, ignoring case. */
  ghost predicate ContainsIgnoringCase(field: Option<string>, search: string)
  {
    field.Some? && exists i :: OccursAt(LowerStr(field.value), LowerStr(search), i)
  }

  /** The selection the dashboard promises, stated without reference to the search code. */
  ghost predicate Selected(b: Book, search: string, genreFilter: string, statusFilter: string)
  {
    (ContainsIgnoringCase(b.title, search) || ContainsIgnoringCase(b.author, search))
    && (genreFilter == "" || b.genre == Some(genreFilter))
    && (statusFilter == "" || b.status == Some(statusFilter))
  }

  /** A book is in the filtered list exactly when it is in the list and is selected. */
  lemma FilterBooksIff(books: seq<Book>, search: string, genreFilter: string, statusFilter: string, b: Book)
    ensures b in FilterBooks(books, search, genreFilter, statusFilter)
      <==> b in books && Selected(b, search, genreFilter, statusFilter)
  {
    var p := MatchesFilters(search, genreFilter, statusFilter);
    var r := FilterBooks(books, search, genreFilter, statusFilter);
    if b.title.Some? {
      IncludesIff(LowerStr(b.title.value), LowerStr(search));
    }
    if b.author.Some? {
      IncludesIff(LowerStr(b.author.value), LowerStr(search));
    }
    assert Matches(b, search, genreFilter, statusFilter) <==> Selected(b, search, genreFilter, statusFilter);
    if b in r {
      var i :| 0 <= i < |r| && r[i] == b;
      assert p(r[i]);
    }
    if b in books && Selected(b, search, genreFilter, statusFilter) {
      var i :| 0 <= i < |books| && books[i] == b;
      assert p(books[i]);
    }
  }

  /** Filtering keeps the list's order: filtering a concatenation is concatenating the
      filtered parts. */
  lemma FilterBooksKeepsOrder(a: seq<Book>, b: seq<Book>, search: string, genreFilter: string, statusFilter: string)
    ensures FilterBooks(a + b, search, genreFilter, statusFilter)
      == FilterBooks(a, search, genreFilter, statusFilter) + FilterBooks(b, search, genreFilter, statusFilter)
  {
    FilterConcat(a, b, MatchesFilters(search, genreFilter, statusFilter));
  }

  /** With an empty search and no genre or status filter, a book matches exactly when
      it has a title or an author, even an empty one. */
  lemma EmptySearchMatchesIff(b: Book)
    ensures Matches(b, "", "", "") <==> b.title.Some? || b.author.Some?
  {
  }

  /** Hence with neutral filters a list whose every book has a title or an author is
      shown whole. */
  lemma NeutralFiltersKeepAll(books: seq<Book>)
    requires forall i :: 0 <= i < |books| ==> books[i].title.Some? || books[i].author.Some?
    ensures FilterBooks(books, "", "", "") == books
  {
    forall i | 0 <= i < |books|
      ensures MatchesFilters("", "", "")(books[i])
    {
      EmptySearchMatchesIff(books[i]);
    }
    FilterKeepsAll(books, MatchesFilters("", "", ""));
  }

  /** The search ignores case: searching for "DUNE" finds a book titled "Dune". */
  lemma SearchIgnoresCase(b: Book)
    requires b.title == Some("Dune")
    ensures Matches(b, "DUNE", "", "") && Matches(b, "dune", "", "")
  {
    assert LowerStr("Dune") == "dune";
    assert LowerStr("DUNE") == "dune";
    assert LowerStr("dune") == "dune";
  }

  // ---------------------------------------------------------------------------
  // Updates to the list by id

  function HasId(id: Value): Book -> bool
  {
    (b: Book) => b.id == id
  }

  function HasOtherId(id: Value): Book -> bool
  {
    (b: Book) => b.id != id
  }

  /** `prev.filter(book => book.id !== id)`. */
  function RemoveById(books: seq<Book>, id: Value): (r: seq<Book>)
    ensures forall i :: 0 <= i < |r| ==> r[i] in books && r[i].id != id
    ensures forall i :: 0 <= i < |books| && books[i].id != id ==> books[i] in r
  {
    Filter(books, HasOtherId(id))
  }

  /** Deleting keeps the remaining books in their order. */
  lemma RemoveKeepsOrder(a: seq<Book>, b: seq<Book>, id: Value)
    ensures RemoveById(a + b, id) == RemoveById(a, id) + RemoveById(b, id)
  {
    FilterConcat(a, b, HasOtherId(id));
  }

  /** Deleting removes exactly the books with the id: the list shrinks by their number. */
  lemma RemoveByIdCount(books: seq<Book>, id: Value)
    ensures |RemoveById(books, id)| == |books| - |Filter(books, HasId(id))|
  {
    FilterPartition(books, HasOtherId(id), HasId(id));
  }

  /** Deleting the book whose id key is missing keeps a book whose id is `null`:
      `undefined !== null`. */
  lemma DeleteUndefinedKeepsNull(x: Book, y: Book)
    requires x.id == Undefined && y.id == Null
    ensures RemoveById([x, y], Undefined) == [y]
  {
    var p := HasOtherId(Undefined);
    assert [x, y][1..] == [y] && [y][1..] == [];
    assert Filter([y], p) == [y] + Filter([], p);
    assert Filter([x, y], p) == [] + Filter([y], p);
  }

  /** Deleting an id no book has leaves the list as it was. */
  lemma RemoveAbsentId(books: seq<Book>, id: Value)
    requires forall i :: 0 <= i < |books| ==> books[i].id != id
    ensures RemoveById(books, id) == books
  {
    FilterKeepsAll(books, HasOtherId(id));
  }

  /** Deleting the one book with an id that the filters show lowers the count the
      pagination control shows by one. */
  lemma RemoveShrinksFilteredCount(books: seq<Book>, x: Book, search: string, genreFilter: string, statusFilter: string)
    requires Filter(books, HasId(x.id)) == [x]
    requires Matches(x, search, genreFilter, statusFilter)
    ensures |FilterBooks(RemoveById(books, x.id), search, genreFilter, statusFilter)|
      == |FilterBooks(books, search, genreFilter, statusFilter)| - 1
  {
    var m := MatchesFilters(search, genreFilter, statusFilter);
    var shown := Filter(books, m);
    FilterCommutes(books, HasOtherId(x.id), m);
    FilterPartition(shown, HasOtherId(x.id), HasId(x.id));
    FilterCommutes(books, HasId(x.id), m);
    assert Filter([x], m) == [x];
  }

  function ReplaceIfSameId(updated: Book): Book -> Book
  {
    (b: Book) => if b.id == updated.id then updated else b
  }

  /** `prevBooks.map(book => book.id === updatedBook.id ? updatedBook : book)`. */
  function ReplaceById(books: seq<Book>, updated: Book): (r: seq<Book>)
    ensures |r| == |books|
    ensures forall i :: 0 <= i < |books| && books[i].id == updated.id ==> r[i] == updated
    ensures forall i :: 0 <= i < |books| && books[i].id != updated.id ==> r[i] == books[i]
  {
    Map(books, ReplaceIfSameId(updated))
  }

  /** Replacing an id no book has leaves the list as it was. */
  lemma ReplaceAbsentId(books: seq<Book>, updated: Book)
    requires forall i :: 0 <= i < |books| ==> books[i].id != updated.id
    ensures ReplaceById(books, updated) == books
  {
  }

  /** Replacing twice with the same record is replacing once. */
  lemma ReplaceIdempotent(books: seq<Book>, updated: Book)
    ensures ReplaceById(ReplaceById(books, updated), updated) == ReplaceById(books, updated)
  {
  }

  /** Replacing a record and then deleting its id is just deleting the id. */
  lemma {:induction false} RemoveAfterReplace(books: seq<Book>, updated: Book)
    ensures RemoveById(ReplaceById(books, updated), updated.id) == RemoveById(books, updated.id)
  {
    if books != [] {
      var r := ReplaceById(books, updated);
      assert r[1..] == ReplaceById(books[1..], updated);
      RemoveAfterReplace(books[1..], updated);
    }
  }

  // ---------------------------------------------------------------------------
  // The component

  /** All of the dashboard's state at one moment. */
  datatype DashboardState = DashboardState(
    books: seq<Book>,
    searchTerm: string,
    genreFilter: string,
    statusFilter: string,
    page: nat,
    rowsPerPage: nat,
    loading: bool,
    openEditModal: bool,
    openDeleteModal: bool,
    selectedBook: Option<Book>)

  class Dashboard {
    var books: seq<Book>
    var searchTerm: string
    var genreFilter: string
    var statusFilter: string
    var page: nat
    var rowsPerPage: nat
    var loading: bool
    var openEditModal: bool
    var openDeleteModal: bool
    var selectedBook: Option<Book>

    /** At most one dialog is open, and an open dialog has a selected book. */
    ghost predicate Valid()
      reads this
    {
      (openEditModal ==> selectedBook.Some?)
      && (openDeleteModal ==> selectedBook.Some?)
      && !(openEditModal && openDeleteModal)
    }

    function State(): DashboardState
      reads this
    {
      DashboardState(books, searchTerm, genreFilter, statusFilter, page, rowsPerPage,
        loading, openEditModal, openDeleteModal, selectedBook)
    }

    /** The initial state: no books, no filters, first page of ten, loading. */
    constructor ()
      ensures Valid()
      ensures State() == DashboardState([], "", "", "", 0, 10, true, false, false, None)
    {
      books, searchTerm, genreFilter, statusFilter := [], "", "", "";
      page, rowsPerPage, loading := 0, 10, true;
      openEditModal, openDeleteModal, selectedBook := false, false, None;
    }

    /** `filteredBooks`: the list under the current search and filters. */
    function FilteredBooks(): (r: seq<Book>)
      reads this
      ensures forall b :: b in r <==> b in books && Selected(b, searchTerm, genreFilter, statusFilter)
    {
      var r := FilterBooks(books, searchTerm, genreFilter, statusFilter);
      assert forall b :: b in r <==> b in books && Selected(b, searchTerm, genreFilter, statusFilter) by {
        forall b ensures b in r <==> b in books && Selected(b, searchTerm, genreFilter, statusFilter) {
          FilterBooksIff(books, searchTerm, genreFilter, statusFilter, b);
        }
      }
      r
    }

    /** `booksToDisplay`: the current page of the filtered list. */
    function BooksToDisplay(): (r: seq<Book>)
      reads this
      ensures |r| <= rowsPerPage
      ensures page * rowsPerPage >= |FilteredBooks()| ==> r == []
      ensures page * rowsPerPage < |FilteredBooks()| ==>
        r == FilteredBooks()[page * rowsPerPage..Min(|FilteredBooks()|, page * rowsPerPage + rowsPerPage)]
      ensures forall i :: 0 <= i < |r| ==>
        page * rowsPerPage + i < |FilteredBooks()| && r[i] == FilteredBooks()[page * rowsPerPage + i]
    {
      Page(FilteredBooks(), page, rowsPerPage)
    }

    /** The mount effect's fetch: `getBooks` never throws (it yields [] on a network
        error), so the list is replaced by what it returned and loading ends. */
    method FetchBooks(fetched: seq<Book>)
      requires Valid()
      modifies this
      ensures Valid()
      ensures State() == old(State()).(books := fetched, loading := false)
    {
      loading := true;
      books := fetched;
      loading := false;
    }

    /** Typing in the search box; the page index is kept. */
    method SetSearchTerm(term: string)
      requires Valid()
      modifies this
      ensures Valid()
      ensures State() == old(State()).(searchTerm := term)
    {
      searchTerm := term;
    }

    /** Choosing a genre ('' for all genres); the page index is kept. */
    method SetGenreFilter(genre: string)
      requires Valid()
      modifies this
      ensures Valid()
      ensures State() == old(State()).(genreFilter := genre)
    {
      genreFilter := genre;
    }

    /** Choosing a status ('' for all statuses); the page index is kept. */
    method SetStatusFilter(status: string)
      requires Valid()
      modifies this
      ensures Valid()
      ensures State() == old(State()).(statusFilter := status)
    {
      statusFilter := status;
    }

    /** Moving to another page changes only the page index. */
    method HandleChangePage(newPage: nat)
      requires Valid()
      modifies this
      ensures Valid()
      ensures State() == old(State()).(page := newPage)
    {
      page := newPage;
    }

    /** Choosing a page size (the parsed option) goes back to the first page. */
    method HandleChangeRowsPerPage(rows: nat)
      requires Valid()
      modifies this
      ensures Valid()
      ensures State() == old(State()).(rowsPerPage := rows, page := 0)
    {
      rowsPerPage := rows;
      page := 0;
    }

    /** Edit on a table row; the row buttons are reachable only with no dialog open. */
    method HandleEditClick(b: Book)
      requires Valid() && !openEditModal && !openDeleteModal
      modifies this
      ensures Valid()
      ensures State() == old(State()).(selectedBook := Some(b), openEditModal := true)
    {
      selectedBook := Some(b);
      openEditModal := true;
    }

    /** Delete on a table row; the row buttons are reachable only with no dialog open. */
    method HandleDeleteClick(b: Book)
      requires Valid() && !openEditModal && !openDeleteModal
      modifies this
      ensures Valid()
      ensures State() == old(State()).(selectedBook := Some(b), openDeleteModal := true)
    {
      selectedBook := Some(b);
      openDeleteModal := true;
    }

    /** Closing the open edit dialog clears the selection; the list is untouched. */
    method HandleCloseEditModal()
      requires Valid() && openEditModal
      modifies this
      ensures Valid()
      ensures State() == old(State()).(openEditModal := false, selectedBook := None)
    {
      openEditModal := false;
      selectedBook := None;
    }

    /** Closing the open delete dialog clears the selection; the list is untouched. */
    method HandleCloseDeleteModal()
      requires Valid() && openDeleteModal
      modifies this
      ensures Valid()
      ensures State() == old(State()).(openDeleteModal := false, selectedBook := None)
    {
      openDeleteModal := false;
      selectedBook := None;
    }

    /** Confirm in the delete dialog: when `deleteBook` succeeds every book with the
        selected id leaves the list; either way the dialog closes and the selection
        is cleared. */
    method HandleConfirmDelete(success: bool)
      requires Valid() && openDeleteModal
      modifies this
      ensures Valid()
      ensures State() == old(State()).(
        books := if success then RemoveById(old(books), old(selectedBook).value.id) else old(books),
        openDeleteModal := false,
        selectedBook := None)
    {
      var id := selectedBook.value.id;
      if success {
        books := RemoveById(books, id);
      }
      HandleCloseDeleteModal();
    }

    /** The edit dialog's `onSuccess`: the record replaces every book with its id,
        and the dialog closes. */
    method HandleEditSuccess(updated: Book)
      requires Valid() && openEditModal
      modifies this
      ensures Valid()
      ensures State() == old(State()).(
        books := ReplaceById(old(books), updated),
        openEditModal := false,
        selectedBook := None)
    {
      books := ReplaceById(books, updated);
      HandleCloseEditModal();
    }

    /** The edit dialog's `onError`: only a notification, no change of state. */
    method HandleEditError()
      ensures State() == old(State())
    {
    }
  }

  /** Save Changes in the open edit dialog, wired to the dashboard as the page wires it:
      on success the list gets the locally merged record, not anything the server
      returned; on failure the dashboard is unchanged and the dialog stays open. */
  method SaveEdit(d: Dashboard, m: EditBookModal, success: bool) returns (request: EditRequest)
    requires d.Valid() && d.openEditModal && m.book == d.selectedBook
    modifies d
    ensures d.Valid()
    ensures request == EditRequest(old(d.selectedBook).value.id, Merge(old(d.selectedBook).value, m.formData))
    ensures success ==> d.State() == old(d.State()).(
      books := ReplaceById(old(d.books), request.body),
      openEditModal := false,
      selectedBook := None)
    ensures !success ==> d.State() == old(d.State())
  {
    var notification;
    request, notification := m.HandleSubmit(success);
    match notification
    case EditSucceeded(updated) =>
      d.HandleEditSuccess(updated);
    case EditFailed =>
      d.HandleEditError();
  }
}
