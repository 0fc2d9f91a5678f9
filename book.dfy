/** The `Book` entity of the service: a record whose required fields are
    guarded by their setters, and the numeric test its `isbn` setter uses. */
module Models {

  /** A Java reference that may be null. */
  datatype Option<+T> = None | Some(value: T)

  /** Java `int` (the range of an `Integer`) and Java `long` (the range of a `Long`). */
  newtype int32 = x: int | -0x8000_0000 <= x < 0x8000_0000
  newtype int64 = x: int | -0x8000_0000_0000_0000 <= x < 0x8000_0000_0000_0000

  /** What a guarded setter reports: it assigned, or Guava's `checkArgument`
      threw an `IllegalArgumentException` naming the offending field. */
  datatype Outcome = Pass | IllegalArgument(field: string)

  /** `Character.isDigit`, restricted to the ASCII digits. */
  predicate IsDigit(c: char) {
    '0' <= c <= '9'
  }

  /** The strings commons-lang3 `StringUtils.isNumeric` accepts: non-empty,
      every character a digit. */
  predicate Numeric(s: string) {
    |s| > 0 && forall i :: 0 <= i < |s| ==> IsDigit(s[i])
  }

  /** `StringUtils.isNumeric`: false for null and for "", otherwise a scan
      that stops at the first character that is not a digit. */
  method IsNumeric(cs: Option<string>) returns (b: bool)
    ensures b <==> cs.Some? && Numeric(cs.value)
    // the failing direction, with the witness a rejecting scan stops at
    ensures cs.Some? && |cs.value| > 0 && !b ==> exists i :: 0 <= i < |cs.value| && !IsDigit(cs.value[i])
  {
    if cs.None? || |cs.value| == 0 {
      return false;
    }
    var s := cs.value;
    var i := 0;
    while i < |s|
      invariant 0 <= i <= |s|
      invariant forall j :: 0 <= j < i ==> IsDigit(s[j])
    {
      if !IsDigit(s[i]) {
        return false;
      }
      i := i + 1;
    }
    return true;
  }

  /** The guard of the text setters: not null and not empty. */
  predicate NonEmpty(v: Option<string>) {
    v.Some? && |v.value| > 0
  }

  /** The guard of `setPages`: not null and greater than 0. */
  predicate Positive(v: Option<int32>) {
    v.Some? && v.value > 0
  }

  /** The guard of `setIsbn`: not null and numeric. */
  predicate NumericIsbn(v: Option<string>) {
    v.Some? && Numeric(v.value)
  }

  /** The value of a `Book` object: every field, `id` included. */
  datatype BookRecord = BookRecord(
    id: Option<int64>,
    genre: Option<string>,
    author: Option<string>,
    image: Option<string>,
    title: Option<string>,
    subtitle: Option<string>,
    publisher: Option<string>,
    year: Option<string>,
    pages: Option<int32>,
    isbn: Option<string>)

  /** What the no-argument constructor leaves: every field null. */
  const Unset: BookRecord :=
    BookRecord(None, None, None, None, None, None, None, None, None, None)

  /** The entity's invariant: every checked field is either still null or
      holds a value its setter accepts. `genre` and `id` are unchecked. */
  predicate FieldsValid(b: BookRecord) {
    && (b.author.None? || NonEmpty(b.author))
    && (b.image.None? || NonEmpty(b.image))
    && (b.title.None? || NonEmpty(b.title))
    && (b.subtitle.None? || NonEmpty(b.subtitle))
    && (b.publisher.None? || NonEmpty(b.publisher))
    && (b.year.None? || NonEmpty(b.year))
    && (b.pages.None? || Positive(b.pages))
    && (b.isbn.None? || NumericIsbn(b.isbn))
  }

  /** A `Book` object. `id` has no setter; only the store assigns it. */
  class Book {
    var id: Option<int64>
    var genre: Option<string>
    var author: Option<string>
    var image: Option<string>
    var title: Option<string>
    var subtitle: Option<string>
    var publisher: Option<string>
    var year: Option<string>
    var pages: Option<int32>
    var isbn: Option<string>

    function Snapshot(): BookRecord
      reads this
    {
      BookRecord(id, genre, author, image, title, subtitle, publisher, year, pages, isbn)
    }

    predicate Valid()
      reads this
    {
      FieldsValid(Snapshot())
    }

    constructor ()
      ensures Snapshot() == Unset
      ensures Valid()
    {
      id, genre, author, image, title := None, None, None, None, None;
      subtitle, publisher, year, pages, isbn := None, None, None, None, None;
    }

    /** The getters: each reads back the field the object's value records.
        `getId` is the only access to `id`; no method of `Book` writes it. */
    function GetId(): (r: Option<int64>)
      reads this
      ensures r == Snapshot().id
    {
      id
    }

    function GetGenre(): (r: Option<string>)
      reads this
      ensures r == Snapshot().genre
    {
      genre
    }

    function GetAuthor(): (r: Option<string>)
      reads this
      ensures r == Snapshot().author
    {
      author
    }

    function GetImage(): (r: Option<string>)
      reads this
      ensures r == Snapshot().image
    {
      image
    }

    function GetTitle(): (r: Option<string>)
      reads this
      ensures r == Snapshot().title
    {
      title
    }

    function GetSubtitle(): (r: Option<string>)
      reads this
      ensures r == Snapshot().subtitle
    {
      subtitle
    }

    function GetPublisher(): (r: Option<string>)
      reads this
      ensures r == Snapshot().publisher
    {
      publisher
    }

    function GetYear(): (r: Option<string>)
      reads this
      ensures r == Snapshot().year
    {
      year
    }

    function GetPages(): (r: Option<int32>)
      reads this
      ensures r == Snapshot().pages
    {
      pages
    }

    function GetIsbn(): (r: Option<string>)
      reads this
      ensures r == Snapshot().isbn
    {
      isbn
    }

    method SetImage(v: Option<string>) returns (o: Outcome)
      modifies this
      ensures o.Pass? <==> NonEmpty(v)
      ensures o.IllegalArgument? ==> o.field == "image"
      ensures o.Pass? ==> GetImage() == v && Snapshot() == old(Snapshot()).(image := v)
      ensures o.IllegalArgument? ==> Snapshot() == old(Snapshot())
      ensures GetId() == old(GetId())
      ensures old(Valid()) ==> Valid()
    {
      if !NonEmpty(v) {
        return IllegalArgument("image");
      }
      image := v;
      return Pass;
    }

    /** The one setter without a guard: null and "" are stored as given. */
    method SetGenre(v: Option<string>)
      modifies this
      ensures GetGenre() == v && Snapshot() == old(Snapshot()).(genre := v)
      ensures GetId() == old(GetId())
      ensures old(Valid()) ==> Valid()
    {
      genre := v;
    }

    method SetAuthor(v: Option<string>) returns (o: Outcome)
      modifies this
      ensures o.Pass? <==> NonEmpty(v)
      ensures o.IllegalArgument? ==> o.field == "author"
      ensures o.Pass? ==> GetAuthor() == v && Snapshot() == old(Snapshot()).(author := v)
      ensures o.IllegalArgument? ==> Snapshot() == old(Snapshot())
      ensures GetId() == old(GetId())
      ensures old(Valid()) ==> Valid()
    {
      if !NonEmpty(v) {
        return IllegalArgument("author");
      }
      author := v;
      return Pass;
    }

    method SetTitle(v: Option<string>) returns (o: Outcome)
      modifies this
      ensures o.Pass? <==> NonEmpty(v)
      ensures o.IllegalArgument? ==> o.field == "title"
      ensures o.Pass? ==> GetTitle() == v && Snapshot() == old(Snapshot()).(title := v)
      ensures o.IllegalArgument? ==> Snapshot() == old(Snapshot())
      ensures GetId() == old(GetId())
      ensures old(Valid()) ==> Valid()
    {
      if !NonEmpty(v) {
        return IllegalArgument("title");
      }
      title := v;
      return Pass;
    }

    method SetSubtitle(v: Option<string>) returns (o: Outcome)
      modifies this
      ensures o.Pass? <==> NonEmpty(v)
      ensures o.IllegalArgument? ==> o.field == "subtitle"
      ensures o.Pass? ==> GetSubtitle() == v && Snapshot() == old(Snapshot()).(subtitle := v)
      ensures o.IllegalArgument? ==> Snapshot() == old(Snapshot())
      ensures GetId() == old(GetId())
      ensures old(Valid()) ==> Valid()
    {
      if !NonEmpty(v) {
        return IllegalArgument("subtitle");
      }
      subtitle := v;
      return Pass;
    }

    method SetPublisher(v: Option<string>) returns (o: Outcome)
      modifies this
      ensures o.Pass? <==> NonEmpty(v)
      ensures o.IllegalArgument? ==> o.field == "publisher"
      ensures o.Pass? ==> GetPublisher() == v && Snapshot() == old(Snapshot()).(publisher := v)
      ensures o.IllegalArgument? ==> Snapshot() == old(Snapshot())
      ensures GetId() == old(GetId())
      ensures old(Valid()) ==> Valid()
    {
      if !NonEmpty(v) {
        return IllegalArgument("publisher");
      }
      publisher := v;
      return Pass;
    }

    method SetYear(v: Option<string>) returns (o: Outcome)
      modifies this
      ensures o.Pass? <==> NonEmpty(v)
      ensures o.IllegalArgument? ==> o.field == "year"
      ensures o.Pass? ==> GetYear() == v && Snapshot() == old(Snapshot()).(year := v)
      ensures o.IllegalArgument? ==> Snapshot() == old(Snapshot())
      ensures GetId() == old(GetId())
      ensures old(Valid()) ==> Valid()
    {
      if !NonEmpty(v) {
        return IllegalArgument("year");
      }
      year := v;
      return Pass;
    }

    method SetPages(v: Option<int32>) returns (o: Outcome)
      modifies this
      ensures o.Pass? <==> Positive(v)
      ensures o.IllegalArgument? ==> o.field == "pages"
      ensures o.Pass? ==> GetPages() == v && Snapshot() == old(Snapshot()).(pages := v)
      ensures o.IllegalArgument? ==> Snapshot() == old(Snapshot())
      ensures GetId() == old(GetId())
      ensures old(Valid()) ==> Valid()
    {
      if !Positive(v) {
        return IllegalArgument("pages");
      }
      pages := v;
      return Pass;
    }

    method SetIsbn(v: Option<string>) returns (o: Outcome)
      modifies this
      ensures o.Pass? <==> NumericIsbn(v)
      ensures o.IllegalArgument? ==> o.field == "isbn"
      ensures o.Pass? ==> GetIsbn() == v && Snapshot() == old(Snapshot()).(isbn := v)
      ensures o.IllegalArgument? ==> Snapshot() == old(Snapshot())
      ensures GetId() == old(GetId())
      ensures old(Valid()) ==> Valid()
    {
      var numeric := false;
      if v.Some? {
        numeric := IsNumeric(v);
      }
      if !numeric {
        return IllegalArgument("isbn");
      }
      isbn := v;
      return Pass;
    }
  }
}
