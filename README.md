# library-manager in Dafny

This is a model of the core of a console library catalogue written in Python. A book
record is `{id, title, author, year, status}`, and the status is "в наличии" (available)
or "выдана" (lent). The model covers three parts:

- the JSON file store (`Storage`), as a class that holds whether the file is there,
  whether it may be opened for reading or writing, whether its content decodes and
  parses, and the list of records it encodes;
- the catalog manager (`LibraryManager`). It reloads the whole list for every
  operation and writes the whole list back after a change. Its rules are id generation,
  lookup by id, status update, deletion and search;
- the decisions both user interfaces make (`InterfacePython` and `InterfaceCurses`):
  - the paged list view: page count, header numbers, the window of five records, the
    navigation keys and the view's loop;
  - the status toggle;
  - the year re-prompt loop and the confirmation loops;
  - the message each flow ends with.

What the user types is given up front, as the sequence of answers to the prompts and the
sequence of keys. When the input runs out before a flow ends, the flow is still waiting.

Modules:

- `Books`: the record, the error kinds, `Option`, `Result` and `Outcome`.
- `Text`: the Python string operations the catalog relies on: `isdigit`, `int`, `str`,
  `lower`, `strip` and `in`.
- `Seqs`: first match and filtering.
- `Persistence`: the file store.
- `Catalog`: the business rules, and the `LibraryManager` class.
- `Pagination`: the paged view.
- `Flows`: the interface flows, with the `Interface` class.
- `Scenarios`: the repository's unit tests and a few worked cases, written as client code.

A few behaviours of the program are easy to misread; the model follows the code:

- For an empty list, `(N - 1) // 5 + 1` is 0 in Python, not 1, so the empty view's
  header reads "0 из 0" (`TotalPages`, `DisplayedPage`).
- Listing and search do not turn a storage failure into an empty list. The
  `RuntimeError` of the store propagates out of `show_all_books` and
  `show_books_search`, and out of the mutating flows too. `main.py` does not catch it,
  and the model returns it as `Raised`.
- A file whose bytes are not UTF-8 makes `json.load` raise `UnicodeDecodeError`. That
  is neither an `IOError` nor a `JSONDecodeError`, so the store does not wrap it
  (src/storage.py:24). It is a `ValueError`, though, and the delete and change-status
  flows catch it around the manager call as if the typed id were bad
  (src/interfaces.py:156, 167, 303, 314). The list and search views let it propagate
  (`DecodeFailed`, `Scenarios.UndecodableFile`).
- Deleting an id removes every record with that id. "Exactly one fewer record" holds
  only while ids are unique (`DeleteRemovesOne`), and uniqueness is kept by every
  operation (`AddKeepsIdsUnique`, `DeleteKeepsIdsUnique`, `UpdateKeepsIdsUnique`).
- `InterfacePython.change_book_status` returns a `StatusMessageCurses` object for an
  invalid or unknown id, and a plain string otherwise (src/interfaces.py:168). The model
  records only which message the flow ends with.
- Ids are not reserved: after the record with the largest id is deleted, the next
  record added gets that id again (`IdReusedAfterDelete`). This is the program's
  behaviour, and the model keeps it.

## Model

| member | source | states |
|---|---|---|
| Text.IsDigits | src/library_manager.py:15 | `isdigit` holds only for a non-empty string with no whitespace and no sign anywhere in it, so " 2024" and "-5" are not years |
| Text.DigitsValuePositive | src/library_manager.py:23 | `int(year)` of a digit string whose first digit is not '0' is positive |
| Text.NatToString | src/library_manager.py:68 | `str(n)` of a natural is a non-empty digit string; it starts with '0' only for 0, and it has one digit exactly below 10 |
| Text.IntToString | src/library_manager.py:68 | `str(n)` is digits for n >= 0, and '-' followed by digits for n < 0 |
| Text.DigitsOfNatToString | src/library_manager.py:23 | `int(str(n)) == n` for every natural n |
| Text.NatToStringOfDigits | src/library_manager.py:68 | `str(int(s)) == s` for every digit string without a leading zero, so a year typed that way is found by its text |
| Text.LowerChar | src/library_manager.py:62 | a lowered character is never upper case, and a character that is not upper case is left as it is |
| Text.Lower | src/library_manager.py:62 | `lower` keeps the length, lowers each character, and leaves no upper-case letter |
| Text.LowerIdempotent | src/library_manager.py:62-67 | lowering twice is lowering once |
| Text.LowerKeepsSpaces | src/library_manager.py:62 | lowering neither creates nor removes whitespace at any position |
| Text.Strip | src/library_manager.py:21-22 | `strip` gives the slice between the leading and the trailing whitespace; it is empty exactly for an all-whitespace string and otherwise has no whitespace at either end |
| Text.StripIdempotent | src/library_manager.py:62 | stripping twice is stripping once |
| Text.Contains | src/library_manager.py:66-67 | `sub in s` never holds for a `sub` longer than `s`; the empty string is in every string, and so is every prefix |
| Text.ParseInt | src/interfaces.py:154 | `int(line)` succeeds exactly when the stripped line is digits, or a '+' or '-' followed by digits, so never on a blank line |
| Text.ParseIntOfIntToString | src/interfaces.py:154 | `int(str(n)) == n` for every integer id, negative ones included |
| Text.ParseIntIgnoresSpaces | src/interfaces.py:154 | whitespace around the typed id does not change the parsed id |
| Text.ParseIntRejects | src/interfaces.py:154-157 | an empty line, a blank line, a lone sign and a word are rejected (the ValueError branch) |
| Text.ParseIntOfDigits | src/interfaces.py:154 | a digit string parses to its decimal value |
| Text.ParseIntOfSigned | src/interfaces.py:166 | a '+' keeps and a '-' negates the value of the digits after it |
| Seqs.FirstWhere | src/library_manager.py:34 | `next(...)` gives the first position whose element passes the test; none exactly when no element passes |
| Seqs.Filter | src/library_manager.py:52 | a comprehension keeps exactly the elements that pass the test, and is never longer than its input |
| Seqs.FilterAppend | src/library_manager.py:63-69 | filtering a concatenation concatenates the filtered parts, so order is kept |
| Seqs.FilterKeepsAll | src/library_manager.py:52 | when every element passes, the list comes back unchanged |
| Seqs.FilterSameLength | src/library_manager.py:52-54 | the filtered list has the original length exactly when no element fails the test |
| Seqs.FilterIdempotent | src/library_manager.py:63-69 | filtering twice with one test is filtering once |
| Seqs.FilterRemovesOne | src/library_manager.py:52 | when only the element at i fails, filtering removes exactly that element and keeps the rest in order |
| Persistence.Storage.Load | src/storage.py:13-27 | a missing file loads as `[]` and a readable file as its records; a file that cannot be opened for reading or whose text is not JSON is the wrapped load error, and one whose bytes are not UTF-8 the unwrapped decoding error; none of them is ever an empty list |
| Persistence.Storage.Save | src/storage.py:29-39 | a save replaces the whole content with well-formed JSON, so a later load gives exactly the saved list unless the file's permissions forbid reading, which a save keeps for an existing file; a failed open for writing reports an error and leaves the file as it was |
| Catalog.MaxId | src/library_manager.py:82 | `max` of the ids is an upper bound of them and is one of them |
| Catalog.NextId | src/library_manager.py:77-82 | the generated id is 1 for an empty list; otherwise it is greater than every id and one more than an existing id |
| Catalog.NewBook | src/library_manager.py:19-25 | the new record has the given id, a title and author with no whitespace left to strip, a year that is not negative (positive without a leading '0'), and status "в наличии" |
| Catalog.NormalizeQuery | src/library_manager.py:62 | the compared query has no capital letter and no whitespace at either end, and it is empty exactly when the typed value is all whitespace |
| Catalog.Matches | src/library_manager.py:66-68 | the empty query matches every record; a query longer than both title and author can match only as the year's text |
| Catalog.FirstIndex | src/library_manager.py:34 | the position of the first record with the id; none exactly when no record has it |
| Catalog.Search | src/library_manager.py:57-69 | the records kept are exactly those whose lowered title or author contains the lowered, stripped query, or whose year's text equals it |
| Catalog.WithoutId | src/library_manager.py:52 | the records kept are exactly those with a different id |
| Catalog.ReplaceFirstById | src/library_manager.py:88-92 | the loop with `break` replaces the first record with the same id and nothing else, and it leaves the list as it was when no record has that id |
| Catalog.AddKeepsIdsUnique | src/library_manager.py:18-27 | appending the new record keeps the ids unique and positive |
| Catalog.AddedRecord | src/library_manager.py:18-27 | the saved list is the old list, in order, with one record appended: stripped title and author, the year's value, status "в наличии", and an id above every old id (1 in an empty catalog) |
| Catalog.IdReusedAfterDelete | src/library_manager.py:77-82 | for ids 1 and 2, deleting 2 and adding again hands out id 2 once more |
| Catalog.DeleteDetectsAbsence | src/library_manager.py:52-54 | the length test reports not-found exactly when no record has the id |
| Catalog.DeleteRemovesOne | src/library_manager.py:47-55 | with unique ids, deleting an existing id removes exactly that record and keeps the others in order |
| Catalog.DeleteKeepsIdsUnique | src/library_manager.py:52 | deleting keeps the ids unique |
| Catalog.UpdateKeepsIdsUnique | src/library_manager.py:39-45 | changing a status keeps the ids unique |
| Catalog.SearchEmptyQuery | src/library_manager.py:62-69 | an empty or all-whitespace query returns every record |
| Catalog.SearchKeepsOrder | src/library_manager.py:63-69 | searching a concatenation concatenates the results, so the result is in list order |
| Catalog.SearchIdempotent | src/library_manager.py:63-69 | searching a search result again with the same query changes nothing |
| Catalog.SearchIgnoresQueryCase | src/library_manager.py:62 | the search result does not depend on the case of the query |
| Catalog.SearchFindsYear | src/library_manager.py:68 | a record added with a year typed without leading zeros is found by searching that year |
| Catalog.LibraryManager.GetAllBooks | src/library_manager.py:71-75 | the list is what the store loads |
| Catalog.LibraryManager.GenerateId | src/library_manager.py:77-82 | the next id of the stored list, or the load error |
| Catalog.LibraryManager.AddBook | src/library_manager.py:11-27 | a year that is not all digits fails before storage is read and changes nothing; a load or save failure changes nothing; otherwise the stored list becomes the old list plus the new record |
| Catalog.LibraryManager.GetBookById | src/library_manager.py:29-37 | the first record with the id, not-found when there is none, or the load error; storage is not written |
| Catalog.LibraryManager.SaveBooksWithUpdate | src/library_manager.py:84-93 | the reloaded list is saved with the first record of the same id replaced |
| Catalog.LibraryManager.UpdateStatusByBookId | src/library_manager.py:39-45 | only the status of the first record with the id changes, and length, order and every other field stay the same; not-found and failures save nothing |
| Catalog.LibraryManager.DeleteBookById | src/library_manager.py:47-55 | the saved list is the records with a different id; not-found saves nothing |
| Catalog.LibraryManager.SearchBooksByValue | src/library_manager.py:57-69 | the search result over the stored list; storage is not written |
| Pagination.TotalPages | src/interfaces.py:199-202 | `(N - 1) // 5 + 1` is 0 for an empty list, and otherwise the least T with N <= 5T |
| Pagination.DisplayedPage | src/interfaces.py:206-208 | on a page the view can be on, the header "page k of T" has 1 <= k <= T for a non-empty list and reads "0 of 0" for an empty one |
| Pagination.Window | src/interfaces.py:210-212 | the window has at most 5 records and is the run of the list starting at page * 5; its length is exact, and it is empty past the end |
| Pagination.WindowNonEmpty | src/interfaces.py:210-212 | a page shows records exactly when it is below the page count |
| Pagination.WindowsFromCover | src/interfaces.py:374-376 | going through the pages from one page on shows every later record once and in order |
| Pagination.PagesCoverList | src/interfaces.py:210-212 | the windows of all pages, one after another, are the whole list |
| Pagination.Navigate | src/interfaces.py:222-228 | key "3" and only "3" leaves; "1" below the last page moves forward one page, "2" above the first moves back one, and every other key or position keeps the page |
| Pagination.NavigateKeepsRange | src/interfaces.py:388-394 | navigation keeps the page in range: page 0, or a page below the page count |
| Pagination.PageAfter | src/interfaces.py:201-228 | the page after any prefix of the keys is in range |
| Pagination.PageAfterSteps | src/interfaces.py:363-392 | the view starts on page 0, and each key moves it by at most one page |
| Pagination.ShowBooksWithPagination | src/interfaces.py:195-228 | the loop shows one screen per key read, each with the page reached, its header and its window, and stops on the first "3" and on no other key; every page shown is in range |
| Flows.ToggleStatus | src/interfaces.py:171 | the new status is "выдана" exactly for "в наличии", and "в наличии" for every other value |
| Flows.ToggleTwice | src/interfaces.py:320 | for the two statuses the program writes, a toggle changes the status, and two toggles restore it |
| Flows.ToggleUnknown | src/interfaces.py:171 | any other stored status becomes "в наличии" and is not restored by a second toggle |
| Flows.MessageText | src/interfaces.py:292-334 | the two messages about an id that cannot be used start with "Ошибка: ", and no other message starts like them |
| Flows.MessagesDistinct | src/interfaces.py:147-185 | each outcome has its own message text |
| Flows.ReadYear | src/interfaces.py:133-134 | the loop accepts the first all-digits answer, so the manager is only called with a valid year; none when the answers run out |
| Flows.ReadChoice | src/interfaces.py:179-185 | the confirmation loop ignores every key but "1" and "2", and answers with the first of them |
| Flows.Interface.AddBook | src/interfaces.py:127-149 | cancel and unfinished input change nothing; saving stores the new record, and a storage failure propagates; every message of the flow is drawn in colour pair 1 (interfaces.py:292-294) |
| Flows.Interface.DeleteBookById | src/interfaces.py:151-159 | an unparsable id, and a file that is not UTF-8, give the invalid-id message and an unknown id the not-found message, all with storage unchanged; otherwise the record is deleted; any other storage failure propagates; a reply is drawn in colour pair 2 exactly when the id could not be used: unparsable, undecodable file, or not found (interfaces.py:302-306) |
| Flows.Interface.ChangeBookStatus | src/interfaces.py:161-185 | an invalid or unknown id, and a file that is not UTF-8, give one error message; cancel changes nothing; confirming stores the toggled status on the first record with that id; any other storage failure propagates; a reply is drawn in colour pair 2 exactly when the id could not be used (interfaces.py:313-334) |
| Flows.Interface.ShowAllBooks | src/interfaces.py:187-188 | the paged view of the stored list, or the load error |
| Flows.Interface.ShowBooksSearch | src/interfaces.py:190-193 | the paged view of the search result, or the load error |
| Scenarios.SaveAndLoad | tests/test_storage.py:18-25 | after a successful save to a readable file, a load gives exactly the saved list, whatever content the file held before |
| Scenarios.SaveToWriteOnlyFile | src/storage.py:20-39 | a file that may be written but not read accepts the save, and the next load still fails with the wrapped error |
| Scenarios.LoadMissingFile | tests/test_storage.py:27-30 | loading a file that is not there gives `[]` |
| Scenarios.LoadUnreadableFile | src/storage.py:20-27 | loading a file that cannot be opened for reading, or whose text is not JSON, is the wrapped error |
| Scenarios.UndecodableFile | src/interfaces.py:151-168 | with a file that is not UTF-8, delete answers with the invalid-id message and change-status with the invalid-or-unknown-id message, while the list view fails with the decoding error |
| Scenarios.TestBookFields | src/library_manager.py:19-25 | the record added to an empty catalog for ("Test Book", "Author", "2024") has id 1, year 2024 and status "в наличии" |
| Scenarios.AddToEmptyCatalog | tests/test_library_manager.py:20-24 | after one add to an empty catalog, the list is that one record |
| Scenarios.AddThenDelete | tests/test_library_manager.py:26-30 | deleting id 1 after the add succeeds and leaves an empty list |
| Scenarios.AddThenLend | tests/test_library_manager.py:32-37 | lending id 1 after the add changes its status to "выдана" and nothing else |
| Scenarios.DeleteOnEmptyCatalog | src/interfaces.py:151-159 | on an empty catalog, "abc" gives the invalid-id message and "7" the not-found message |
| Scenarios.LendThroughInterface | src/interfaces.py:161-185 | through the change-status screen, " 1 " with the keys "x", "1" lends the record |
| Scenarios.TwelveBooksThreePages | src/interfaces.py:199-212 | 12 records make 3 pages of 5, 5 and 2, and nothing past them; an empty list has 0 pages and shows page 0 |
| Scenarios.TwelveBooksNavigation | src/interfaces.py:222-226 | on 12 records, "1" three times stops at the last page, and "2" then goes back one |
| Scenarios.BrowseTwelveBooks | src/interfaces.py:195-228 | keys "1", "1", "1", "3" show pages 1, 2, 3, 3 of 3, with the last two records on the last page, and then leave the view |

## Left out

- Terminal drawing and reading: `print`, `input`, `os.system` and every `curses` call. Input is the given sequences of answers and keys; only the content of each screen is modelled.
- The menu texts, the prompts, the row layout of a screen, and the colour setup.
- The JSON encoding and the file system. The file is the class's fields, and a failed read or write is a flag of the state: `readProtected` for a failed open for reading, `undecodable` for bytes that are not UTF-8, `malformed` for text that is not JSON, and `unwritable` for a failed open for writing.
- The store does not model a write that fails halfway through, leaving a truncated file.
- Records that a hand-edited file could hold in other shapes: missing keys, or other types. A record is always the five typed fields.
- `src/main.py`: the dispatch loop `run_application`, interface selection, the terminal-height wait and the `KeyboardInterrupt` exit. The loop resets the status message on each pass and passes it to the next menu screen; the model does not show this.
- Text.ParseInt: does not model Python's `int` accepting underscores between digits or non-ASCII digits.
- Text.IsDigits: does not model `str.isdigit` accepting non-ASCII digits and superscripts, because the model's digits are '0'..'9'.
- Text.Lower: lowers only ASCII letters and the Cyrillic block U+0400..U+042F, not all of Unicode.
- Text.Strip: treats as whitespace only the ASCII whitespace characters, not the Unicode ones.
- Pagination.ShowBooksWithPagination: the view returns the screens it drew, not the terminal output; the `enumerate(..., start=2)` row index only places rows on the curses screen.
