/** The REST controller for books, over a repository modelled as a map from
    id to the stored book's value (one database row per key). */
module Controllers {
  import opened Models

  /** The two exceptions the controller throws, and the null-pointer failure
      of `updateBook` when the body carries no id. */
  datatype Error = NotFound | IdMismatch | NullPointer

  datatype Result<+T> = Ok(value: T) | Err(error: Error)

  /** The repository's contents. */
  type Store = map<int64, BookRecord>

  /** Every row is stored under its own id. */
  predicate Consistent(m: Store) {
    forall k :: k in m ==> m[k].id == Some(k)
  }

  /** Every row holds the entity's field invariant. */
  predicate AllFieldsValid(m: Store) {
    forall k :: k in m ==> FieldsValid(m[k])
  }

  /** A non-empty finite set of ids has a least element: this one. */
  lemma {:induction false} LeastIdOf(s: set<int64>) returns (k: int64)
    requires s != {}
    ensures k in s
    ensures forall j :: j in s ==> k <= j
  {
    var x :| x in s;
    var s' := s - {x};
    if s' == {} {
      k := x;
      forall j | j in s
        ensures k <= j
      {
        assert j !in s';
      }
    } else {
      var m := LeastIdOf(s');
      k := if x < m then x else m;
      forall j | j in s
        ensures k <= j
      {
        if j != x {
          assert j in s';
        }
      }
    }
  }

  lemma LeastIdExists(s: set<int64>)
    requires s != {}
    ensures exists k :: k in s && forall j :: j in s ==> k <= j
  {
    var k := LeastIdOf(s);
  }

  /** The least id of a non-empty set of ids. */
  function LeastId(s: set<int64>): (k: int64)
    requires s != {}
    ensures k in s && forall j :: j in s ==> k <= j
  {
    LeastIdExists(s);
    var k :| k in s && forall j :: j in s ==> k <= j;
    k
  }

  /** Removing key `k` leaves every row but the one under `k`. */
  lemma ValuesWithout(m: Store, k: int64)
    requires k in m
    ensures m.Values == (m - {k}).Values + {m[k]}
  {
    forall b | b in m.Values
      ensures b in (m - {k}).Values + {m[k]}
    {
      var j :| j in m && m[j] == b;
      if j != k {
        assert (m - {k})[j] == b;
      }
    }
  }

  /** The rows of a store as a list, in ascending id order: each stored row
      appears, nothing else does, and a consistent store lists each row once. */
  function Rows(m: Store): (r: seq<BookRecord>)
    ensures |r| == |m|
    ensures forall b :: b in r <==> b in m.Values
    ensures Consistent(m) ==> forall i, j :: 0 <= i < j < |r| ==> r[i] != r[j]
    decreases m.Keys
  {
    if m == map[] then []
    else
      var k := LeastId(m.Keys);
      ValuesWithout(m, k);
      [m[k]] + Rows(m - {k})
  }

  class BookController {
    /** The injected `BookRepository`. */
    var store: Store

    predicate Valid()
      reads this
    {
      Consistent(store)
    }

    /** A controller wired to a repository holding `rows`. */
    constructor (rows: Store)
      requires Consistent(rows)
      ensures Valid() && store == rows
    {
      store := rows;
    }

    /** `findAll`: every stored book, each once, in the store's order. */
    function FindAll(): (r: seq<BookRecord>)
      reads this
      ensures |r| == |store|
      ensures forall b :: b in r <==> b in store.Values
      ensures Valid() ==> forall i, j :: 0 <= i < j < |r| ==> r[i] != r[j]
    {
      Rows(store)
    }

    /** `findById`: the stored book, or `NotFound` when the id is absent. */
    function FindById(id: int64): (r: Result<BookRecord>)
      reads this
      ensures r.Ok? <==> id in store
      ensures r.Ok? ==> r.value == store[id] && r.value in FindAll()
      ensures r.Err? ==> r.error == NotFound
      ensures Valid() && r.Ok? ==> r.value.id == Some(id)
    {
      if id in store then Ok(store[id]) else Err(NotFound)
    }

    /** `create`: hands the payload to `save`. A payload without an id is
        persisted under `newId`, a key the id sequence has not handed out,
        and the payload object receives that id; a payload with an id is
        stored under it, replacing any row already there. */
    method Create(book: Book, newId: int64) returns (saved: Book)
      requires Valid()
      requires book.id.None? ==> newId !in store
      modifies this, book
      ensures Valid()
      ensures saved == book
      ensures book.id == if old(book.id).Some? then old(book.id) else Some(newId)
      ensures book.Snapshot() == old(book.Snapshot()).(id := book.id)
      ensures store == old(store)[book.id.value := book.Snapshot()]
      ensures FindById(book.id.value) == Ok(book.Snapshot())
      ensures old(book.id).None? ==> |store| == |old(store)| + 1
      ensures old(AllFieldsValid(store)) && old(book.Valid()) ==> AllFieldsValid(store)
    {
      if book.id.None? {
        book.id := Some(newId);
      }
      store := store[book.id.value := book.Snapshot()];
      saved := book;
    }

    /** `delete`: the existence check comes before the removal. */
    method Delete(id: int64) returns (r: Result<()>)
      requires Valid()
      modifies this
      ensures Valid()
      ensures r.Ok? <==> id in old(store)
      ensures r.Err? ==> r.error == NotFound && store == old(store)
      ensures r.Ok? ==> store == old(store) - {id} && |store| == |old(store)| - 1
      ensures FindById(id) == Err(NotFound)
      ensures forall k :: k != id ==> FindById(k) == old(FindById(k))
    {
      if id !in store {
        return Err(NotFound);
      }
      store := store - {id};
      return Ok(());
    }

    /** `updateBook`: the body's id is compared with the path id first (a
        null body id fails on the dereference), then existence is checked,
        and only then is the payload saved as a full replacement. */
    method UpdateBook(book: Book, id: int64) returns (r: Result<Book>)
      requires Valid()
      modifies this
      ensures Valid()
      ensures book.id.None? ==> r == Err(NullPointer)
      ensures book.id.Some? && book.id.value != id ==> r == Err(IdMismatch)
      ensures book.id == Some(id) && id !in old(store) ==> r == Err(NotFound)
      ensures r.Ok? <==> book.id == Some(id) && id in old(store)
      ensures r.Err? ==> store == old(store)
      ensures r.Ok? ==> r.value == book && store == old(store)[id := book.Snapshot()]
      ensures r.Ok? ==> FindById(id) == Ok(book.Snapshot()) && store.Keys == old(store).Keys
      ensures old(AllFieldsValid(store)) && book.Valid() ==> AllFieldsValid(store)
    {
      if book.id.None? {
        return Err(NullPointer);
      }
      if book.id.value != id {
        return Err(IdMismatch);
      }
      if id !in store {
        return Err(NotFound);
      }
      store := store[id := book.Snapshot()];
      return Ok(book);
    }
  }

  /** What a client of the setters' contracts can conclude: a book built
      field by field, with rejected values leaving the fields as they were. */
  method ClientBuildsBook() returns (book: Book)
    ensures fresh(book) && book.Valid() && book.GetId() == None
  {
    book := new Book();
    var o := book.SetTitle(Some("Dune"));
    assert o == Pass;
    o := book.SetAuthor(Some("Herbert"));
    o := book.SetImage(Some("x.jpg"));
    o := book.SetSubtitle(Some("s"));
    o := book.SetPublisher(Some("Ace"));
    o := book.SetYear(Some("1965"));
    o := book.SetPages(Some(412));
    assert o == Pass;
    o := book.SetPages(Some(0));
    assert o == IllegalArgument("pages") && book.GetPages() == Some(412);
    o := book.SetIsbn(Some("9780441013593"));
    assert o == Pass;
    assert !IsDigit("978-0441"[3]);
    o := book.SetIsbn(Some("978-0441"));
    assert o == IllegalArgument("isbn") && book.GetIsbn() == Some("9780441013593");
  }

  /** What a client of the controller's contracts can conclude about one
      session: create a book, read it back, try an update whose path id
      differs from the body's, delete it, and find it gone. */
  method ClientSession(newId: int64)
    requires newId != 7
  {
    var book := ClientBuildsBook();
    var controller := new BookController(map[]);
    var saved := controller.Create(book, newId);
    assert saved.GetId() == Some(newId);
    assert controller.FindById(newId) == Ok(book.Snapshot());
    assert controller.FindAll() == [book.Snapshot()];

    var updated := controller.UpdateBook(book, 7);
    assert updated == Err(IdMismatch);

    var deleted := controller.Delete(newId);
    assert deleted.Ok?;
    assert controller.FindById(newId) == Err(NotFound);
    deleted := controller.Delete(newId);
    assert deleted == Err(NotFound);
  }
}
