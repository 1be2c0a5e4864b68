/** The catalog manager (src/library_manager.py): the business rules over the ordered
    list of records, and `LibraryManager`, which reloads the whole list from storage
    for every operation and saves the whole list back after a change. */
module Catalog {
  import opened Books
  import opened Text
  import opened Seqs
  import opened Persistence

  /** No two records share an id. */
  predicate UniqueIds(books: seq<Book>) {
    forall i, j :: 0 <= i < j < |books| ==> books[i].id != books[j].id
  }

  /** Every id is positive. */
  predicate PositiveIds(books: seq<Book>) {
    forall i :: 0 <= i < |books| ==> books[i].id > 0
  }

  /** The largest id of a non-empty list. */
  function MaxId(books: seq<Book>): (m: int)
    requires books != []
    ensures forall b :: b in books ==> b.id <= m
    ensures exists b :: b in books && b.id == m
  {
    if |books| == 1 then books[0].id
    else
      var rest := MaxId(books[1..]);
      assert forall b :: b in books ==> b == books[0] || b in books[1..];
      if books[0].id >= rest then books[0].id else rest
  }

  /** `_generate_id`: one more than the largest id, 1 for an empty list. */
  function NextId(books: seq<Book>): (r: int)
    ensures books == [] ==> r == 1
    ensures forall b :: b in books ==> b.id < r
    ensures books != [] ==> exists b :: b in books && b.id == r - 1
  {
    if books == [] then 1 else MaxId(books) + 1
  }

  /** The record `add_book` appends for an all-digits year: title and author are stored
      without surrounding whitespace, the year is not negative and the book is available. */
  function NewBook(id: int, title: string, author: string, year: string): (r: Book)
    requires IsDigits(year)
    ensures r.id == id && r.year >= 0 && r.status == Available
    ensures Strip(r.title) == r.title && Strip(r.author) == r.author
    ensures year[0] != '0' ==> r.year > 0
  {
    StripIdempotent(title);
    StripIdempotent(author);
    DigitsValuePositive(year);
    Book(id, Strip(title), Strip(author), DigitsValue(year), Available)
  }

  /** The position of the first record with this id: the record `next(...)` returns
      and the one the update loop stops at. */
  function FirstIndex(books: seq<Book>, id: int): (r: Option<nat>)
    ensures r.Some? ==> r.value < |books| && books[r.value].id == id
    ensures r.Some? ==> forall j :: 0 <= j < r.value ==> books[j].id != id
    ensures r.None? <==> forall j :: 0 <= j < |books| ==> books[j].id != id
  {
    FirstWhere(books, (b: Book) => b.id == id)
  }

  /** The query as the search compares it: lowered, then stripped. It holds no capital
      letter and no whitespace at either end, and it is empty exactly when the value typed
      is all whitespace. */
  function NormalizeQuery(value: string): (q: string)
    ensures forall i :: 0 <= i < |q| ==> !IsUpperChar(q[i])
    ensures q != [] ==> !IsSpace(q[0]) && !IsSpace(q[|q| - 1])
    ensures q == [] <==> forall i :: 0 <= i < |value| ==> IsSpace(value[i])
  {
    LowerKeepsSpaces(value);
    Strip(Lower(value))
  }

  /** The search test for one record and a normalized query: a substring of the lowered
      title or of the lowered author, or exactly the decimal text of the year. The empty
      query matches every record; a query longer than both title and author matches only
      through the year. */
  predicate Matches(b: Book, q: string)
    ensures q == [] ==> Matches(b, q)
    ensures Matches(b, q) && |q| > |b.title| && |q| > |b.author| ==> q == IntToString(b.year)
  {
    Contains(Lower(b.title), q) || Contains(Lower(b.author), q) || q == IntToString(b.year)
  }

  /** `search_books_by_value` on the loaded list. */
  function Search(books: seq<Book>, value: string): (r: seq<Book>)
    ensures forall b :: b in r <==> b in books && Matches(b, NormalizeQuery(value))
  {
    var q := NormalizeQuery(value);
    Filter(books, (b: Book) => Matches(b, q))
  }

  /** The list `delete_book_by_id` saves: the records with a different id. */
  function WithoutId(books: seq<Book>, id: int): (r: seq<Book>)
    ensures forall b :: b in r <==> b in books && b.id != id
  {
    Filter(books, (b: Book) => b.id != id)
  }

  /** The list `_save_books_with_update` saves: the first record with the updated
      record's id replaced by it; the list as it was when no record has that id. */
  function ReplaceFirst(books: seq<Book>, updated: Book): seq<Book> {
    match FirstIndex(books, updated.id)
    case None => books
    case Some(i) => books[i := updated]
  }

  /** The replacement loop of `_save_books_with_update`, with its `break`. */
  method ReplaceFirstById(books: seq<Book>, updated: Book) returns (r: seq<Book>)
    ensures |r| == |books|
    ensures FirstIndex(books, updated.id).None? ==> r == books
    ensures FirstIndex(books, updated.id).Some? ==>
              var i := FirstIndex(books, updated.id).value;
              r[i] == updated && forall j :: 0 <= j < |r| && j != i ==> r[j] == books[j]
    ensures r == ReplaceFirst(books, updated)
  {
    r := books;
    for i := 0 to |books|
      invariant r == books
      invariant forall j :: 0 <= j < i ==> books[j].id != updated.id
    {
      if books[i].id == updated.id {
        r := books[i := updated];
        break;
      }
    }
  }

  /** The identifier appended by `add_book` is new: every stored id is smaller. */
  lemma AddKeepsIdsUnique(books: seq<Book>, title: string, author: string, year: string)
    requires IsDigits(year) && UniqueIds(books)
    ensures UniqueIds(books + [NewBook(NextId(books), title, author, year)])
    ensures PositiveIds(books) ==> PositiveIds(books + [NewBook(NextId(books), title, author, year)])
  {
    var b := NewBook(NextId(books), title, author, year);
    var s := books + [b];
    forall i, j | 0 <= i < j < |s|
      ensures s[i].id != s[j].id
    {
      if j == |books| {
        assert s[i] in books;
      } else {
        assert s[i] == books[i] && s[j] == books[j];
      }
    }
    if PositiveIds(books) && books != [] {
      assert books[0] in books;
    }
  }

  /** The record `add_book` builds for an all-digits year. */
  lemma AddedRecord(books: seq<Book>, title: string, author: string, year: string)
    requires IsDigits(year)
    ensures var s := books + [NewBook(NextId(books), title, author, year)];
      && |s| == |books| + 1
      && s[..|books|] == books
      && s[|books|].title == Strip(title) && s[|books|].author == Strip(author)
      && s[|books|].year == DigitsValue(year) && s[|books|].status == Available
      && (books == [] ==> s[|books|].id == 1)
      && (forall b :: b in books ==> b.id < s[|books|].id)
  {
    var s := books + [NewBook(NextId(books), title, author, year)];
    assert s[..|books|] == books;
  }

  /** Deleting the record with the largest id and adding again hands out that id once
      more: ids are not reserved after deletion. */
  lemma IdReusedAfterDelete(a: Book, b: Book)
    requires a.id == 1 && b.id == 2
    ensures WithoutId([a, b], 2) == [a]
    ensures NextId([a, b]) == 3 && NextId(WithoutId([a, b], 2)) == 2
  {
    assert [a, b][1..] == [b];
    assert WithoutId([a, b], 2) == [a] + Filter([b], (x: Book) => x.id != 2);
    assert Filter([b], (x: Book) => x.id != 2) == [] + Filter([b][1..], (x: Book) => x.id != 2);
  }

  /** Deleting reports "not found" (equal lengths) exactly when no record has the id. */
  lemma DeleteDetectsAbsence(books: seq<Book>, id: int)
    ensures |WithoutId(books, id)| == |books| <==> FirstIndex(books, id).None?
  {
    FilterSameLength(books, (b: Book) => b.id != id);
    if FirstIndex(books, id).Some? {
      assert books[FirstIndex(books, id).value] in books;
    }
  }

  /** Without duplicate ids, deleting an existing id removes exactly that record and
      keeps all the others in their order. */
  lemma DeleteRemovesOne(books: seq<Book>, id: int)
    requires UniqueIds(books) && FirstIndex(books, id).Some?
    ensures var i := FirstIndex(books, id).value;
      WithoutId(books, id) == books[..i] + books[i + 1..]
    ensures |WithoutId(books, id)| == |books| - 1
  {
    var i := FirstIndex(books, id).value;
    FilterRemovesOne(books, (b: Book) => b.id != id, i);
  }

  /** Removing one record from a list with unique ids keeps them unique. */
  lemma RemoveAtKeepsIdsUnique(books: seq<Book>, i: nat)
    requires UniqueIds(books) && i < |books|
    ensures UniqueIds(books[..i] + books[i + 1..])
  {
    var s := books[..i] + books[i + 1..];
    forall p, q | 0 <= p < q < |s|
      ensures s[p].id != s[q].id
    {
      var p' := if p < i then p else p + 1;
      var q' := if q < i then q else q + 1;
      assert s[p] == books[p'] && s[q] == books[q'];
    }
  }

  /** Deleting keeps the ids unique. */
  lemma DeleteKeepsIdsUnique(books: seq<Book>, id: int)
    requires UniqueIds(books)
    ensures UniqueIds(WithoutId(books, id))
  {
    if FirstIndex(books, id).None? {
      FilterKeepsAll(books, (b: Book) => b.id != id);
    } else {
      DeleteRemovesOne(books, id);
      RemoveAtKeepsIdsUnique(books, FirstIndex(books, id).value);
    }
  }

  /** Setting the status of the first record with an id keeps the ids unique. */
  lemma UpdateKeepsIdsUnique(books: seq<Book>, id: int, status: string)
    requires UniqueIds(books) && FirstIndex(books, id).Some?
    ensures var i := FirstIndex(books, id).value;
      UniqueIds(books[i := books[i].(status := status)])
  {
  }

  /** An empty (or all-whitespace) query matches every record. */
  lemma SearchEmptyQuery(books: seq<Book>, value: string)
    requires NormalizeQuery(value) == ""
    ensures Search(books, value) == books
  {
    FilterKeepsAll(books, (b: Book) => Matches(b, NormalizeQuery(value)));
  }

  /** The search keeps the list order: searching a concatenation concatenates the results. */
  lemma SearchKeepsOrder(a: seq<Book>, b: seq<Book>, value: string)
    ensures Search(a + b, value) == Search(a, value) + Search(b, value)
  {
    var q := NormalizeQuery(value);
    FilterAppend(a, b, (x: Book) => Matches(x, q));
  }

  /** Searching the result of a search again with the same query changes nothing. */
  lemma SearchIdempotent(books: seq<Book>, value: string)
    ensures Search(Search(books, value), value) == Search(books, value)
  {
    var q := NormalizeQuery(value);
    FilterIdempotent(books, (x: Book) => Matches(x, q));
  }

  /** The search does not depend on the case of the query. */
  lemma SearchIgnoresQueryCase(books: seq<Book>, value: string)
    ensures Search(books, Lower(value)) == Search(books, value)
  {
    LowerIdempotent(value);
  }

  /** A digit string is its own normalized query. */
  lemma DigitsUnchangedByNormalizing(s: string)
    requires IsDigits(s)
    ensures NormalizeQuery(s) == s
  {
    assert Lower(s) == s;
    StripUntrimmed(s);
  }

  /** A record added with a year written as `str` writes it is found by searching that year. */
  lemma SearchFindsYear(books: seq<Book>, title: string, author: string, year: string)
    requires IsCanonicalDigits(year)
    ensures var b := NewBook(NextId(books), title, author, year);
      b in Search(books + [b], year)
  {
    var b := NewBook(NextId(books), title, author, year);
    DigitsUnchangedByNormalizing(year);
    NatToStringOfDigits(year);
    assert Matches(b, year);
  }

  /** The catalog manager. It keeps no copy of the list between calls. */
  class LibraryManager {
    const storage: Storage

    constructor (storage: Storage)
      ensures this.storage == storage
    {
      this.storage := storage;
    }

    /** `get_all_books`: the stored list, in storage order. */
    method GetAllBooks() returns (r: Result<seq<Book>>)
      ensures r == storage.Loaded()
    {
      r := storage.Load();
    }

    /** `_generate_id`, which loads the list once more. */
    method GenerateId() returns (r: Result<int>)
      ensures storage.Loaded().Err? ==> r == Err(storage.Loaded().error)
      ensures storage.Loaded().Ok? ==> r == Ok(NextId(storage.Loaded().value))
    {
      var books := GetAllBooks();
      if books.Err? {
        return Err(books.error);
      }
      r := Ok(NextId(books.value));
    }

    /** `add_book`: rejects a year that is not all digits before touching storage,
        otherwise appends the new record and saves the whole list. */
    method AddBook(title: string, author: string, year: string) returns (r: Outcome)
      modifies storage
      ensures !IsDigits(year) ==> r == Failure(InvalidYear) && unchanged(storage)
      ensures IsDigits(year) && old(storage.Loaded()).Err? ==>
                r == Failure(old(storage.Loaded()).error) && unchanged(storage)
      ensures IsDigits(year) && old(storage.Loaded()).Ok? && storage.unwritable ==>
                r == Failure(SaveFailed) && unchanged(storage)
      ensures IsDigits(year) && old(storage.Loaded()).Ok? && !storage.unwritable ==>
                var books := old(storage.Loaded()).value;
                r == Success && storage.Loaded() == Ok(books + [NewBook(NextId(books), title, author, year)])
    {
      if !IsDigits(year) {
        return Failure(InvalidYear);
      }
      var books := GetAllBooks();
      if books.Err? {
        return Failure(books.error);
      }
      var id := GenerateId();
      match id
      case Err(e) =>
        // the second load reads the same state as the first, so it cannot fail here
        r := Failure(e);
      case Ok(next) =>
        r := storage.Save(books.value + [NewBook(next, title, author, year)]);
    }

    /** `get_book_by_id`: the first record with this id, or not-found. */
    method GetBookById(id: int) returns (r: Result<Book>)
      ensures storage.Loaded().Err? ==> r == Err(storage.Loaded().error)
      ensures storage.Loaded().Ok? && FirstIndex(storage.Loaded().value, id).None? ==>
                r == Err(BookNotFound(id))
      ensures storage.Loaded().Ok? && FirstIndex(storage.Loaded().value, id).Some? ==>
                r == Ok(storage.Loaded().value[FirstIndex(storage.Loaded().value, id).value])
    {
      var books := GetAllBooks();
      if books.Err? {
        return Err(books.error);
      }
      var i := FirstIndex(books.value, id);
      if i.None? {
        return Err(BookNotFound(id));
      }
      r := Ok(books.value[i.value]);
    }

    /** `_save_books_with_update`: reloads, replaces the first record with the same id
        and saves the whole list. */
    method SaveBooksWithUpdate(updated: Book) returns (r: Outcome)
      modifies storage
      ensures old(storage.Loaded()).Err? ==> r == Failure(old(storage.Loaded()).error) && unchanged(storage)
      ensures old(storage.Loaded()).Ok? && storage.unwritable ==>
                r == Failure(SaveFailed) && unchanged(storage)
      ensures old(storage.Loaded()).Ok? && !storage.unwritable ==>
                r == Success && storage.Loaded() == Ok(ReplaceFirst(old(storage.Loaded()).value, updated))
    {
      var books := GetAllBooks();
      if books.Err? {
        return Failure(books.error);
      }
      var replaced := ReplaceFirstById(books.value, updated);
      r := storage.Save(replaced);
    }

    /** `update_status_by_book_id`: sets the status of the first record with this id and
        nothing else; not-found leaves storage untouched. */
    method UpdateStatusByBookId(id: int, newStatus: string) returns (r: Outcome)
      modifies storage
      ensures old(storage.Loaded()).Err? ==> r == Failure(old(storage.Loaded()).error) && unchanged(storage)
      ensures old(storage.Loaded()).Ok? && FirstIndex(old(storage.Loaded()).value, id).None? ==>
                r == Failure(BookNotFound(id)) && unchanged(storage)
      ensures old(storage.Loaded()).Ok? && FirstIndex(old(storage.Loaded()).value, id).Some? ==>
                if storage.unwritable then r == Failure(SaveFailed) && unchanged(storage)
                else
                  var books := old(storage.Loaded()).value;
                  var i := FirstIndex(books, id).value;
                  r == Success && storage.Loaded() == Ok(books[i := books[i].(status := newStatus)])
    {
      var found := GetBookById(id);
      if found.Err? {
        return Failure(found.error);
      }
      var book := found.value.(status := newStatus);
      r := SaveBooksWithUpdate(book);
    }

    /** `delete_book_by_id`: saves the records with a different id; when filtering
        removed nothing it reports not-found and saves nothing. */
    method DeleteBookById(id: int) returns (r: Outcome)
      modifies storage
      ensures old(storage.Loaded()).Err? ==> r == Failure(old(storage.Loaded()).error) && unchanged(storage)
      ensures old(storage.Loaded()).Ok? && FirstIndex(old(storage.Loaded()).value, id).None? ==>
                r == Failure(BookNotFound(id)) && unchanged(storage)
      ensures old(storage.Loaded()).Ok? && FirstIndex(old(storage.Loaded()).value, id).Some? ==>
                if storage.unwritable then r == Failure(SaveFailed) && unchanged(storage)
                else r == Success && storage.Loaded() == Ok(WithoutId(old(storage.Loaded()).value, id))
    {
      var loaded := GetAllBooks();
      if loaded.Err? {
        return Failure(loaded.error);
      }
      var books := loaded.value;
      var newBooks := WithoutId(books, id);
      DeleteDetectsAbsence(books, id);
      if |newBooks| == |books| {
        return Failure(BookNotFound(id));
      }
      r := storage.Save(newBooks);
    }

    /** `search_books_by_value`: reads the list and never writes it. */
    method SearchBooksByValue(value: string) returns (r: Result<seq<Book>>)
      ensures storage.Loaded().Err? ==> r == Err(storage.Loaded().error)
      ensures storage.Loaded().Ok? ==> r == Ok(Search(storage.Loaded().value, value))
    {
      var books := GetAllBooks();
      if books.Err? {
        return Err(books.error);
      }
      r := Ok(Search(books.value, value));
    }
  }
}
