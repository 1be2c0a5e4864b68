/** The decisions the two user interfaces of src/interfaces.py make between the prompts
    and the catalog: the status toggle, the re-prompt loops, the message each
    flow ends with and the paged views. `InterfacePython` and `InterfaceCurses`
    make the same decisions and differ only in how they draw; terminal drawing is
    not part of this model. What the user types is given up front: the answers to
    the prompts and the keys read by `get_value`, in order. When they run out before
    the flow has finished, the flow is still waiting for input (`Waiting`). */
module Flows {
  import opened Books
  import opened Text
  import opened Seqs
  import opened Catalog
  import opened Pagination

  /** The status offered by the change-status screen: "выдана" for an available book,
      "в наличии" for a lent one and for any other stored value. */
  function ToggleStatus(s: string): (r: string)
    ensures r == Lent <==> s == Available
    ensures r == Available <==> s != Available
  {
    if s == Available then Lent else Available
  }

  /** Toggling twice restores either of the two statuses the program writes. */
  lemma ToggleTwice(s: string)
    requires s == Available || s == Lent
    ensures ToggleStatus(ToggleStatus(s)) == s
    ensures ToggleStatus(s) != s
  {
  }

  /** A status the program never writes becomes "в наличии" and is not restored by a
      second toggle. */
  lemma ToggleUnknown(s: string)
    requires s != Available && s != Lent
    ensures ToggleStatus(s) == Available
    ensures ToggleStatus(ToggleStatus(s)) == Lent
  {
  }

  /** The messages the flows end with. */
  datatype Message =
    | BookAdded
    | AddCancelled
    | BookDeleted
    | InvalidId
    | IdNotFound
    | InvalidOrMissingId
    | StatusChanged
    | StatusChangeCancelled

  /** The prefix of the messages about an id that cannot be used. */
  const ErrorPrefix := "Ошибка: "

  /** The text the main menu shows under the menu. The two messages about an id that
      cannot be used start with "Ошибка: " (error: ); no other message does. */
  function MessageText(m: Message): (r: string)
    ensures r != []
    ensures m.InvalidId? || m.InvalidOrMissingId? ==> |r| > |ErrorPrefix| && r[..|ErrorPrefix|] == ErrorPrefix
    ensures !m.InvalidId? && !m.InvalidOrMissingId? ==> r[0] != ErrorPrefix[0]
  {
    match m
    case BookAdded => "Книга успешно добавлена"
    case AddCancelled => "Добавление книги отменено"
    case BookDeleted => "Книга успешно удалена"
    case InvalidId => ErrorPrefix + "некорректный ID"
    case IdNotFound => "Книга с таким ID не найдена"
    case InvalidOrMissingId => ErrorPrefix + "некорректный или несуществующий ID"
    case StatusChanged => "Статус успешно изменен"
    case StatusChangeCancelled => "Изменение статуса отменено"
  }

  /** The colour pair the curses interface draws the message in: 1 for a completed or
      cancelled action, 2 for an id that could not be used. */
  function MessageColor(m: Message): int {
    match m
    case InvalidId | IdNotFound | InvalidOrMissingId => 2
    case _ => 1
  }

  /** Each message has its own text. */
  lemma MessagesDistinct(m1: Message, m2: Message)
    ensures MessageText(m1) == MessageText(m2) ==> m1 == m2
  {
    if MessageText(m1) == MessageText(m2) {
      assert |MessageText(m1)| == |MessageText(m2)|;
      assert MessageText(m1)[0] == MessageText(m2)[0];
      assert MessageText(m1)[9] == MessageText(m2)[9];
    }
  }

  /** How a flow ends: with a message for the main menu, with an exception that the
      flow does not catch (a storage failure), or still waiting for input. */
  datatype FlowResult = Reply(message: Message) | Raised(error: Error) | Waiting

  /** The keys the confirmation loops react to. */
  predicate IsChoiceKey(k: string) {
    k == "1" || k == "2"
  }

  /** The year-prompt loop of `add_book`: asks again until the answer is all digits.
      None: the answers ran out first. */
  method ReadYear(answers: seq<string>) returns (year: Option<string>)
    ensures year.Some? ==> IsDigits(year.value)
    ensures FirstWhere(answers, IsDigits).None? ==> year.None?
    ensures FirstWhere(answers, IsDigits).Some? ==>
              year == Some(answers[FirstWhere(answers, IsDigits).value])
  {
    if answers == [] {
      return None;
    }
    var i := 0;
    var y := answers[0];
    while !IsDigits(y)
      invariant 0 <= i < |answers| && y == answers[i]
      invariant forall j :: 0 <= j < i ==> !IsDigits(answers[j])
      decreases |answers| - i
    {
      i := i + 1;
      if i == |answers| {
        return None;
      }
      y := answers[i];
    }
    year := Some(y);
  }

  /** The answers of a confirmation screen. */
  datatype Choice = Confirm | Cancel

  /** A confirmation loop: reads keys, ignoring all but "1" (confirm) and "2" (cancel).
      None: the keys ran out first. */
  method ReadChoice(keys: seq<string>) returns (c: Option<Choice>)
    ensures FirstWhere(keys, IsChoiceKey).None? ==> c.None?
    ensures FirstWhere(keys, IsChoiceKey).Some? ==>
              c == Some(if keys[FirstWhere(keys, IsChoiceKey).value] == "1" then Confirm else Cancel)
  {
    var i := 0;
    while i < |keys|
      invariant 0 <= i <= |keys|
      invariant forall j :: 0 <= j < i ==> !IsChoiceKey(keys[j])
    {
      var choice := keys[i];
      if choice == "1" {
        return Some(Confirm);
      } else if choice == "2" {
        return Some(Cancel);
      }
      i := i + 1;
    }
    c := None;
  }

  /** One of the two interfaces, bound to its catalog manager. */
  class Interface {
    const manager: LibraryManager

    constructor (manager: LibraryManager)
      ensures this.manager == manager
    {
      this.manager := manager;
    }

    /** `add_book`: title and author as typed, the year re-asked until it is all digits,
        then the save/cancel screen; saving adds the record with the stripped title and
        author and the next id. */
    method AddBook(title: string, author: string, yearAnswers: seq<string>, keys: seq<string>)
      returns (r: FlowResult)
      modifies manager.storage
      ensures FirstWhere(yearAnswers, IsDigits).None? ==> r == Waiting && unchanged(manager.storage)
      ensures FirstWhere(yearAnswers, IsDigits).Some? && FirstWhere(keys, IsChoiceKey).None? ==>
                r == Waiting && unchanged(manager.storage)
      ensures FirstWhere(yearAnswers, IsDigits).Some? && FirstWhere(keys, IsChoiceKey).Some? ==>
                var year := yearAnswers[FirstWhere(yearAnswers, IsDigits).value];
                var choice := keys[FirstWhere(keys, IsChoiceKey).value];
                && (choice == "2" ==> r == Reply(AddCancelled) && unchanged(manager.storage))
                && (choice == "1" && old(manager.storage.Loaded()).Err? ==>
                      r == Raised(old(manager.storage.Loaded()).error) && unchanged(manager.storage))
                && (choice == "1" && old(manager.storage.Loaded()).Ok? && manager.storage.unwritable ==>
                      r == Raised(SaveFailed) && unchanged(manager.storage))
                && (choice == "1" && old(manager.storage.Loaded()).Ok? && !manager.storage.unwritable ==>
                      var books := old(manager.storage.Loaded()).value;
                      r == Reply(BookAdded) &&
                      manager.storage.Loaded() == Ok(books + [NewBook(NextId(books), title, author, year)]))
      ensures r.Reply? ==> MessageColor(r.message) == 1
    {
      var year := ReadYear(yearAnswers);
      if year.None? {
        return Waiting;
      }
      var choice := ReadChoice(keys);
      if choice.None? {
        return Waiting;
      }
      if choice.value == Cancel {
        return Reply(AddCancelled);
      }
      var added := manager.AddBook(title, author, year.value);
      if added.Failure? {
        return Raised(added.error);
      }
      r := Reply(BookAdded);
    }

    /** `delete_book_by_id`: a line that is not an integer is reported as an invalid id
        and an unknown id as not found. Of the storage failures, only the decoding error is
        caught, by the same `except ValueError` as a bad id; the others propagate. */
    method DeleteBookById(answer: string) returns (r: FlowResult)
      modifies manager.storage
      ensures ParseInt(answer).None? ==> r == Reply(InvalidId) && unchanged(manager.storage)
      ensures ParseInt(answer).Some? ==>
                var id := ParseInt(answer).value;
                && (old(manager.storage.Loaded()) == Err(DecodeFailed) ==>
                      r == Reply(InvalidId) && unchanged(manager.storage))
                && (old(manager.storage.Loaded()).Err? && old(manager.storage.Loaded()) != Err(DecodeFailed) ==>
                      r == Raised(old(manager.storage.Loaded()).error) && unchanged(manager.storage))
                && (old(manager.storage.Loaded()).Ok? && FirstIndex(old(manager.storage.Loaded()).value, id).None? ==>
                      r == Reply(IdNotFound) && unchanged(manager.storage))
                && (old(manager.storage.Loaded()).Ok? && FirstIndex(old(manager.storage.Loaded()).value, id).Some? ==>
                      (manager.storage.unwritable ==> r == Raised(SaveFailed) && unchanged(manager.storage)) &&
                      (!manager.storage.unwritable ==>
                        r == Reply(BookDeleted) &&
                        manager.storage.Loaded() == Ok(WithoutId(old(manager.storage.Loaded()).value, id))))
      ensures r.Reply? ==>
                (MessageColor(r.message) == 2 <==>
                   || ParseInt(answer).None?
                   || old(manager.storage.Loaded()) == Err(DecodeFailed)
                   || (old(manager.storage.Loaded()).Ok? &&
                       FirstIndex(old(manager.storage.Loaded()).value, ParseInt(answer).value).None?))
    {
      var id := ParseInt(answer);
      if id.None? {
        return Reply(InvalidId);
      }
      var deleted := manager.DeleteBookById(id.value);
      match deleted
      case Success =>
        r := Reply(BookDeleted);
      case Failure(BookNotFound(_)) =>
        r := Reply(IdNotFound);
      case Failure(DecodeFailed) =>
        r := Reply(InvalidId);
      case Failure(e) =>
        r := Raised(e);
    }

    /** `change_book_status`: a line that is not an integer, an unknown id and the
        decoding error of the file (all caught by one `except (ValueError, KeyError)`) get
        the same error; otherwise the screen offers the toggled status, and confirming
        stores it on that record. */
    method ChangeBookStatus(answer: string, keys: seq<string>) returns (r: FlowResult)
      modifies manager.storage
      ensures ParseInt(answer).None? ==> r == Reply(InvalidOrMissingId) && unchanged(manager.storage)
      ensures ParseInt(answer).Some? && old(manager.storage.Loaded()) == Err(DecodeFailed) ==>
                r == Reply(InvalidOrMissingId) && unchanged(manager.storage)
      ensures ParseInt(answer).Some? && old(manager.storage.Loaded()).Err? &&
              old(manager.storage.Loaded()) != Err(DecodeFailed) ==>
                r == Raised(old(manager.storage.Loaded()).error) && unchanged(manager.storage)
      ensures ParseInt(answer).Some? && old(manager.storage.Loaded()).Ok? ==>
                var books := old(manager.storage.Loaded()).value;
                var found := FirstIndex(books, ParseInt(answer).value);
                var choice := FirstWhere(keys, IsChoiceKey);
                && (found.None? ==> r == Reply(InvalidOrMissingId) && unchanged(manager.storage))
                && (found.Some? && choice.None? ==> r == Waiting && unchanged(manager.storage))
                && (found.Some? && choice.Some? && keys[choice.value] == "2" ==>
                      r == Reply(StatusChangeCancelled) && unchanged(manager.storage))
                && (found.Some? && choice.Some? && keys[choice.value] == "1" ==>
                      var i := found.value;
                      (manager.storage.unwritable ==> r == Raised(SaveFailed) && unchanged(manager.storage)) &&
                      (!manager.storage.unwritable ==>
                        r == Reply(StatusChanged) &&
                        manager.storage.Loaded() == Ok(books[i := books[i].(status := ToggleStatus(books[i].status))])))
      ensures r.Reply? ==>
                (MessageColor(r.message) == 2 <==>
                   || ParseInt(answer).None?
                   || old(manager.storage.Loaded()) == Err(DecodeFailed)
                   || (old(manager.storage.Loaded()).Ok? &&
                       FirstIndex(old(manager.storage.Loaded()).value, ParseInt(answer).value).None?))
    {
      var id := ParseInt(answer);
      if id.None? {
        return Reply(InvalidOrMissingId);
      }
      var found := manager.GetBookById(id.value);
      if found.Err? {
        if found.error.BookNotFound? || found.error == DecodeFailed {
          return Reply(InvalidOrMissingId);
        }
        return Raised(found.error);
      }
      var book := found.value;
      var newStatus := ToggleStatus(book.status);
      var choice := ReadChoice(keys);
      if choice.None? {
        return Waiting;
      }
      if choice.value == Cancel {
        return Reply(StatusChangeCancelled);
      }
      var updated := manager.UpdateStatusByBookId(book.id, newStatus);
      if updated.Failure? {
        return Raised(updated.error);
      }
      r := Reply(StatusChanged);
    }

    /** `show_all_books`: the paged view of the stored list; a load failure is not caught. */
    method ShowAllBooks(keys: seq<string>) returns (r: Result<seq<Screen>>, exited: bool)
      ensures manager.storage.Loaded().Err? ==> r == Err(manager.storage.Loaded().error) && !exited
      ensures manager.storage.Loaded().Ok? ==>
                r.Ok? && IsView(manager.storage.Loaded().value, keys, r.value, exited)
    {
      var books := manager.GetAllBooks();
      if books.Err? {
        return Err(books.error), false;
      }
      var screens;
      screens, exited := ShowBooksWithPagination(books.value, keys);
      r := Ok(screens);
    }

    /** `show_books_search`: the paged view of the records matching the query. */
    method ShowBooksSearch(query: string, keys: seq<string>) returns (r: Result<seq<Screen>>, exited: bool)
      ensures manager.storage.Loaded().Err? ==> r == Err(manager.storage.Loaded().error) && !exited
      ensures manager.storage.Loaded().Ok? ==>
                r.Ok? && IsView(Search(manager.storage.Loaded().value, query), keys, r.value, exited)
    {
      var books := manager.SearchBooksByValue(query);
      if books.Err? {
        return Err(books.error), false;
      }
      var screens;
      screens, exited := ShowBooksWithPagination(books.value, keys);
      r := Ok(screens);
    }
  }
}
