/** The book record as the dashboard receives it from the server, and the five-field
    draft that both book forms (the add page and the edit dialog) hold. */
module Records {
  import opened Options

  /** A JavaScript field value that is not a plain optional string: `year` arrives as a
      number from the server but as a string from a form input, and `id` is whatever the
      server assigned. `undefined` (a missing key) and `null` are kept apart, since ids
      are compared with `===` and `!==`, which tell the two apart. */
  datatype Value = Undefined | Null | Text(s: string) | Number(n: int)

  /** JavaScript falsiness of a field: `undefined`, `null`, `''` and `0`. */
  predicate Falsy(v: Value)
  {
    v.Undefined? || v.Null? || v == Text("") || v == Number(0)
  }

  /** A book as held in the dashboard's list. The text fields may be missing (None);
      `extra` holds every field besides these six, which a spread `{...book}` copies. */
  datatype Book = Book(
    id: Value,
    title: Option<string>,
    author: Option<string>,
    genre: Option<string>,
    year: Value,
    status: Option<string>,
    extra: map<string, Value>)

  /** The five inputs of a book form, by their `name` attribute. */
  datatype FieldName = Title | Author | Genre | Year | Status

  /** The draft a form holds. Inputs deliver strings; `year` may still hold the number
      the edit dialog copied from the book. A draft never carries an id. */
  datatype BookForm = BookForm(
    title: string,
    author: string,
    genre: string,
    year: Value,
    status: string)

  /** The empty draft: blank fields and status 'Available'. */
  const BlankForm := BookForm("", "", "", Text(""), "Available")

  /** The value of one form field, seen as a JavaScript value. */
  function FormField(f: BookForm, n: FieldName): Value
  {
    match n
    case Title => Text(f.title)
    case Author => Text(f.author)
    case Genre => Text(f.genre)
    case Year => f.year
    case Status => Text(f.status)
  }

  /** The value of one of the form's fields on a book. */
  function BookField(b: Book, n: FieldName): Value
  {
    match n
    case Title => TextValue(b.title)
    case Author => TextValue(b.author)
    case Genre => TextValue(b.genre)
    case Year => b.year
    case Status => TextValue(b.status)
  }

  function TextValue(o: Option<string>): Value
  {
    if o.Some? then Text(o.value) else Undefined
  }

  /** `{ ...prev, [name]: value }` for an input event: the named field takes the
      input's string and every other field keeps its value. */
  function WithField(f: BookForm, name: FieldName, value: string): (r: BookForm)
    ensures forall n :: FormField(r, n) == if n == name then Text(value) else FormField(f, n)
  {
    match name
    case Title => f.(title := value)
    case Author => f.(author := value)
    case Genre => f.(genre := value)
    case Year => f.(year := Text(value))
    case Status => f.(status := value)
  }
}
