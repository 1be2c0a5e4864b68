/** The unit tests of the repository (tests/test_storage.py and
    tests/test_library_manager.py) and some worked cases of the views, as client code of
    the model with the outcome each one promises. */
module Scenarios {
  import opened Books
  import opened Text
  import opened Seqs
  import opened Persistence
  import opened Catalog
  import opened Pagination
  import opened Flows

  /** `test_save_and_load_books`: whatever content the file held before, a successful
      save followed by a load gives back exactly the saved list. */
  method SaveAndLoad(xs: seq<Book>, present: bool, data: seq<Book>, undecodable: bool, malformed: bool)
    returns (r: Result<seq<Book>>)
    ensures r == Ok(xs)
  {
    var storage := new Storage(present, data, false, undecodable, malformed, false);
    var saved := storage.Save(xs);
    r := storage.Load();
  }

  /** A file that may be written but not read: the save succeeds, and the next load
      still fails with the wrapped error. */
  method SaveToWriteOnlyFile(xs: seq<Book>, data: seq<Book>) returns (saved: Outcome, r: Result<seq<Book>>)
    ensures saved == Success && r == Err(LoadFailed)
  {
    var storage := new Storage(true, data, true, false, false, false);
    saved := storage.Save(xs);
    r := storage.Load();
  }

  /** `test_load_books_empty_file`: loading a file that is not there gives the empty list. */
  method LoadMissingFile(data: seq<Book>, readProtected: bool, undecodable: bool, malformed: bool)
    returns (r: Result<seq<Book>>)
    ensures r == Ok([])
  {
    var storage := new Storage(false, data, readProtected, undecodable, malformed, false);
    r := storage.Load();
  }

  /** A file that cannot be opened for reading, or whose text is not JSON, is reported,
      not taken for an empty catalog. */
  method LoadUnreadableFile(data: seq<Book>, readProtected: bool, malformed: bool) returns (r: Result<seq<Book>>)
    requires readProtected || malformed
    ensures r == Err(LoadFailed)
  {
    var storage := new Storage(true, data, readProtected, false, malformed, false);
    r := storage.Load();
  }

  /** A file that is not UTF-8 fails with the decoding error, which the delete and
      change-status screens report as a bad id, while the list view lets it through. */
  method UndecodableFile(data: seq<Book>) returns (deleted: FlowResult, changed: FlowResult, listed: Result<seq<Screen>>)
    ensures deleted == Reply(InvalidId) && changed == Reply(InvalidOrMissingId)
    ensures listed == Err(DecodeFailed)
  {
    var storage := new Storage(true, data, false, true, false, false);
    var manager := new LibraryManager(storage);
    var ui := new Interface(manager);
    ParseIntOfDigits("1");
    deleted := ui.DeleteBookById("1");
    changed := ui.ChangeBookStatus("1", ["1"]);
    var exited;
    listed, exited := ui.ShowAllBooks(["3"]);
  }

  /** The record the tests add to an empty catalog. */
  function TestBook(): Book {
    Book(1, "Test Book", "Author", 2024, Available)
  }

  lemma TestBookFields()
    ensures NewBook(NextId([]), "Test Book", "Author", "2024") == TestBook()
  {
    StripUntrimmed("Test Book");
    StripUntrimmed("Author");
    assert DigitsValue("2024") == 2024 by {
      assert "2024"[..3] == "202" && "202"[..2] == "20" && "20"[..1] == "2" && "2"[..0] == "";
    }
  }

  /** A catalog holding just the test record, as `add_book("Test Book", "Author", "2024")`
      leaves a catalog whose file did not exist. */
  method CatalogWithTestBook() returns (manager: LibraryManager)
    ensures fresh(manager) && fresh(manager.storage)
    ensures manager.storage.Loaded() == Ok([TestBook()]) && !manager.storage.unwritable
  {
    var storage := new Storage(false, [], false, false, false, false);
    manager := new LibraryManager(storage);
    assert IsDigits("2024");
    var added := manager.AddBook("Test Book", "Author", "2024");
    TestBookFields();
    assert [] + [TestBook()] == [TestBook()];
  }

  /** `test_add_book`: after adding to an empty catalog, listing gives that one record. */
  method AddToEmptyCatalog() returns (r: Result<seq<Book>>)
    ensures r == Ok([TestBook()])
  {
    var manager := CatalogWithTestBook();
    r := manager.GetAllBooks();
  }

  /** `test_delete_book`: adding a record and deleting id 1 leaves an empty catalog. */
  method AddThenDelete() returns (deleted: Outcome, r: Result<seq<Book>>)
    ensures deleted == Success && r == Ok([])
  {
    var manager := CatalogWithTestBook();
    assert FirstIndex([TestBook()], 1) == Some(0);
    deleted := manager.DeleteBookById(1);
    assert WithoutId([TestBook()], 1) == [] by {
      assert [TestBook()][1..] == [];
    }
    r := manager.GetAllBooks();
  }

  /** `test_change_book_status`: lending the added record changes its status only. */
  method AddThenLend() returns (r: Result<seq<Book>>)
    ensures r == Ok([TestBook().(status := Lent)])
  {
    var manager := CatalogWithTestBook();
    assert FirstIndex([TestBook()], 1) == Some(0);
    var updated := manager.UpdateStatusByBookId(1, Lent);
    assert [TestBook()][0 := TestBook().(status := Lent)] == [TestBook().(status := Lent)];
    r := manager.GetAllBooks();
  }

  /** The delete screen on an empty catalog: a word is an invalid id, a number is not found. */
  method DeleteOnEmptyCatalog() returns (word: FlowResult, number: FlowResult)
    ensures word == Reply(InvalidId) && number == Reply(IdNotFound)
  {
    var storage := new Storage(false, [], false, false, false, false);
    var manager := new LibraryManager(storage);
    var ui := new Interface(manager);
    ParseIntRejects();
    word := ui.DeleteBookById("abc");
    ParseIntOfDigits("7");
    number := ui.DeleteBookById("7");
  }

  /** The change-status screen on the added record: keys other than "1" and "2" are
      ignored, "1" lends the book; the id may be typed with spaces around it. */
  method LendThroughInterface() returns (result: FlowResult, r: Result<seq<Book>>)
    ensures result == Reply(StatusChanged)
    ensures r == Ok([TestBook().(status := Lent)])
  {
    var manager := CatalogWithTestBook();
    var ui := new Interface(manager);
    assert ParseInt(" 1 ") == Some(1) by {
      assert Strip(" 1 ") == "1";
      ParseIntIgnoresSpaces(" 1 ");
      ParseIntOfDigits("1");
    }
    assert FirstIndex([TestBook()], 1) == Some(0);
    assert FirstWhere(["x", "1"], IsChoiceKey) == Some(1) by {
      assert !IsChoiceKey("x");
      assert ["x", "1"][1..] == ["1"];
    }
    result := ui.ChangeBookStatus(" 1 ", ["x", "1"]);
    assert [TestBook()][0 := TestBook().(status := Lent)] == [TestBook().(status := Lent)];
    r := manager.GetAllBooks();
  }

  /** Twelve records fill three pages of 5, 5 and 2; an empty list has no page. */
  lemma TwelveBooksThreePages(books: seq<Book>)
    requires |books| == 12
    ensures TotalPages(|books|) == 3
    ensures |Window(books, 0)| == 5 && |Window(books, 1)| == 5 && |Window(books, 2)| == 2
    ensures Window(books, 3) == []
    ensures TotalPages(0) == 0 && DisplayedPage(0, 0) == 0
  {
  }

  /** On twelve records, "1" three times stops at the last page, "2" goes back one,
      and "3" leaves. */
  lemma TwelveBooksNavigation(books: seq<Book>)
    requires |books| == 12
    ensures var keys := ["1", "1", "1", "2", "3"];
      && PageAfter(12, keys, 1) == 1 && PageAfter(12, keys, 2) == 2
      && PageAfter(12, keys, 3) == 2 && PageAfter(12, keys, 4) == 1
  {
  }

  /** The view of twelve records with these keys shows pages 1, 2, 3, 3 of 3 and leaves. */
  method BrowseTwelveBooks(books: seq<Book>) returns (screens: seq<Screen>, exited: bool)
    requires |books| == 12
    ensures exited && |screens| == 4
    ensures screens[0].shown == 1 && screens[1].shown == 2 && screens[2].shown == 3 && screens[3].shown == 3
    ensures forall j :: 0 <= j < 4 ==> screens[j].total == 3
    ensures screens[3].rows == books[10..]
  {
    var keys := ["1", "1", "1", "3"];
    screens, exited := ShowBooksWithPagination(books, keys);
    assert keys[3] == "3";
    assert !exists j :: 0 <= j < 3 && keys[j] == "3";
    assert PageAfter(12, keys, 3) == 2;
  }
}
