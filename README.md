# Book CRUD service: a Dafny model

This project models the core of a small Spring REST service for books. It has two parts:

- **`Models` (book.dfy)** models the `Book` entity. `Book` is a class whose fields are Java
  references that may be null, written as `Option<T>`. Each required field has a setter that
  checks a guard before it assigns, in the way Guava's `checkArgument` does. A failed guard is
  reported as `IllegalArgument(field)` instead of a thrown `IllegalArgumentException`, and the
  field is left unchanged. The text fields need a non-null, non-empty string. `pages` needs a
  non-null value greater than 0. `isbn` needs a non-null string that commons-lang3
  `StringUtils.isNumeric` accepts. That test is modelled as the method `IsNumeric`, a loop over
  the characters, proved against the predicate `Numeric`. `genre` has no guard, and `id` has no
  setter. The getters are the `Get*` functions, and the setters' contracts are stated through them.
  The no-argument constructor leaves every field null. So the invariant a `Book` keeps is
  `FieldsValid`: each checked field is either null or holds a value its setter accepts. Every
  setter preserves it.
- **`Controllers` (book_controller.dfy)** models `BookController` over its injected
  `BookRepository`. The repository is the field `store: map<int64, BookRecord>`, with one stored
  row per id. `findById` is a lookup, `deleteById` removes a key, and `save` inserts or
  replaces. `findAll` and `findById` are functions over the store. `create`, `delete` and
  `updateBook` are methods that change it. The controller keeps the invariant `Consistent`:
  every row is stored under its own id. The exceptions become the `Error` variants `NotFound`
  and `IdMismatch`. `NullPointer` stands for the failure of `book.getId().equals(id)` when the
  body has no id.

Java's `Integer` and `Long` are modelled as the newtypes `int32` and `int64`. Strings are
`seq<char>`.

Two details of the source shape the model:

- The no-argument constructor (Book.java:70-72) validates nothing. Only the setters check, so a
  new `Book` has every required field null.
- A body without an id fails on the dereference at BookController.java:97, before any
  comparison with the path id. The model reports that case as `NullPointer`.

Two client methods, `ClientBuildsBook` and `ClientSession`, show what a caller can conclude from
the contracts alone. They follow one session: build a book through its setters, create it, read
it back, send an update with a mismatched id, delete it, and find it gone.

## Model

| member | source | states |
|---|---|---|
| Models.IsNumeric | src/main/java/com/deploy/demo/models/Book.java:152 | `isNumeric` is true exactly for a non-null, non-empty string whose every character is a digit; when it is false for a non-empty string, some character is not a digit |
| Models.Book.constructor | src/main/java/com/deploy/demo/models/Book.java:70-72 | a new `Book` has every field null, `id` included, and so satisfies the entity invariant |
| Models.Book.GetId | src/main/java/com/deploy/demo/models/Book.java:156-158 | returns the book's id, null until the store assigns one; no method of `Book` changes it, as every setter's contract keeps `GetId()` and the whole snapshot's `id` |
| Models.Book.GetImage | src/main/java/com/deploy/demo/models/Book.java:75-77 | returns the `image` field of the book's value, which is what the `image` setter's contract says it stored |
| Models.Book.GetGenre | src/main/java/com/deploy/demo/models/Book.java:84-86 | returns the `genre` field of the book's value, which is what the `genre` setter's contract says it stored |
| Models.Book.GetAuthor | src/main/java/com/deploy/demo/models/Book.java:92-94 | returns the `author` field of the book's value, which is what the `author` setter's contract says it stored |
| Models.Book.GetTitle | src/main/java/com/deploy/demo/models/Book.java:101-103 | returns the `title` field of the book's value, which is what the `title` setter's contract says it stored |
| Models.Book.GetSubtitle | src/main/java/com/deploy/demo/models/Book.java:110-112 | returns the `subtitle` field of the book's value, which is what the `subtitle` setter's contract says it stored |
| Models.Book.GetPublisher | src/main/java/com/deploy/demo/models/Book.java:119-121 | returns the `publisher` field of the book's value, which is what the `publisher` setter's contract says it stored |
| Models.Book.GetYear | src/main/java/com/deploy/demo/models/Book.java:129-131 | returns the `year` field of the book's value, which is what the `year` setter's contract says it stored |
| Models.Book.GetPages | src/main/java/com/deploy/demo/models/Book.java:138-140 | returns the `pages` field of the book's value, which is what the `pages` setter's contract says it stored |
| Models.Book.GetIsbn | src/main/java/com/deploy/demo/models/Book.java:147-149 | returns the `isbn` field of the book's value, which is what the `isbn` setter's contract says it stored |
| Models.Book.SetImage | src/main/java/com/deploy/demo/models/Book.java:79-82 | fails, naming `image`, exactly on a null or empty string, and then changes nothing; otherwise `getImage` returns the argument and no other field, `id` included, changes; the invariant is preserved |
| Models.Book.SetGenre | src/main/java/com/deploy/demo/models/Book.java:88-90 | never fails; stores any value, null and "" included, so `getGenre` returns it; no other field changes |
| Models.Book.SetAuthor | src/main/java/com/deploy/demo/models/Book.java:96-99 | fails, naming `author`, exactly on a null or empty string, and then changes nothing; otherwise `getAuthor` returns the argument and no other field changes; the invariant is preserved |
| Models.Book.SetTitle | src/main/java/com/deploy/demo/models/Book.java:105-108 | fails, naming `title`, exactly on a null or empty string, and then changes nothing; otherwise `getTitle` returns the argument and no other field changes; the invariant is preserved |
| Models.Book.SetSubtitle | src/main/java/com/deploy/demo/models/Book.java:114-117 | fails, naming `subtitle`, exactly on a null or empty string, and then changes nothing; otherwise `getSubtitle` returns the argument and no other field changes; the invariant is preserved |
| Models.Book.SetPublisher | src/main/java/com/deploy/demo/models/Book.java:123-127 | fails, naming `publisher`, exactly on a null or empty string, and then changes nothing; otherwise `getPublisher` returns the argument and no other field changes; the invariant is preserved |
| Models.Book.SetYear | src/main/java/com/deploy/demo/models/Book.java:133-136 | fails, naming `year`, exactly on a null or empty string, and then changes nothing; otherwise `getYear` returns the argument and no other field changes; the invariant is preserved |
| Models.Book.SetPages | src/main/java/com/deploy/demo/models/Book.java:142-145 | fails, naming `pages`, for null and for every value at most 0, and then changes nothing; succeeds for every value from 1 up, after which `getPages` returns it and no other field changes |
| Models.Book.SetIsbn | src/main/java/com/deploy/demo/models/Book.java:151-154 | fails, naming `isbn`, for null, for "" and for any string with a non-digit character, and then changes nothing; otherwise `getIsbn` returns the argument and no other field changes |
| Controllers.Rows | src/main/java/com/deploy/demo/controllers/BookController.java:42 | listing a store gives as many rows as it has keys, contains exactly its rows, and lists no row twice when every row is stored under its own id |
| Controllers.BookController.constructor | src/main/java/com/deploy/demo/controllers/BookController.java:31-32 | the controller starts over the injected repository's contents, which store every row under its own id |
| Controllers.BookController.FindAll | src/main/java/com/deploy/demo/controllers/BookController.java:41-43 | returns every stored book and nothing else, one entry per stored id, without changing the store |
| Controllers.BookController.FindById | src/main/java/com/deploy/demo/controllers/BookController.java:52-57 | returns the stored book exactly when the id is present, and that book is among `findAll`'s and carries the requested id; otherwise `NotFound` |
| Controllers.BookController.Create | src/main/java/com/deploy/demo/controllers/BookController.java:67-70 | performs no check of its own; a payload without an id gets a fresh id and adds one row; the returned book is the payload, and a following `findById` of its id returns it; persisting a valid payload into valid rows keeps every row valid |
| Controllers.BookController.Delete | src/main/java/com/deploy/demo/controllers/BookController.java:80-84 | an absent id gives `NotFound` and leaves the store unchanged; a present id removes exactly that key; afterwards `findById` of the id gives `NotFound`, and every other id finds what it found before |
| Controllers.BookController.UpdateBook | src/main/java/com/deploy/demo/controllers/BookController.java:94-102 | a null body id fails first, then a body id different from the path id gives `IdMismatch` whether or not the id is stored, then an absent id gives `NotFound`; every failure leaves the store unchanged; success replaces exactly the row under the id with the payload, returns the payload, and a following `findById` returns it |

## Left out

- Models.IsNumeric: the digit test accepts only the ASCII digits `0`-`9`. `Character.isDigit`, which commons-lang3 uses, also accepts the other Unicode decimal digits, such as Arabic-Indic digits. So the model rejects some ISBNs that the source accepts.
- Models.Book.SetImage: the exception message is not modelled. The message is built from the constant strings in `Constant`, which are not part of this model. Only the field name passed to `checkArgument` is kept. The same holds for every other guarded setter.
- Controllers.BookController.Create: the id sequence (`BOOK_SEQ`, Book.java:21-23) is the parameter `newId`. The only thing assumed about it is that it is not already a key of the store.
- Controllers.BookController.Create: a payload that already carries an id is stored under that id, inserting or replacing. How JPA `save` treats an id that the database does not know is part of the persistence framework and is not modelled. For such a payload `save` goes through JPA `merge`, which returns a managed copy with the same field values; the model returns the payload object itself.
- Controllers.BookController.UpdateBook: it returns the payload object itself. JPA `merge` returns a managed copy with the same field values.
- Controllers.BookController.FindAll: the model lists rows in ascending id order, but the contract promises no order. The real order depends on the database.
- Controllers.BookController.FindById: the store holds the values of stored books (database rows), not shared Java objects. A book fetched, changed and not saved again does not change the store, as with a database.
- The database constraints are not modelled: the `unique = true` on `isbn` and the `nullable = false` columns of Book.java. They are enforced by the database, not by the code shown.
- Deserialising a JSON request body into a `Book` is not modelled. Jackson does this and chooses which setters run, so an invalid body fails in a setter before the controller runs. The controller methods accept any `Book` object.
- `RestExceptionHandler` is not modelled. It only maps `NotFound` to HTTP 404 and `IdMismatch` to HTTP 400, and it stamps the response with the wall-clock time.
- HTTP routing, `@ResponseStatus(CREATED)` and the Swagger annotations are not modelled.
- Concurrent requests and transactions are not modelled. The framework and the database handle them.
