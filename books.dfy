/** The catalog record and the error kinds shared by every layer. */
module Books {

  /** A book record `{id, title, author, year, status}` as stored in the catalog file. */
  datatype Book = Book(id: int, title: string, author: string, year: int, status: string)

  /** The two status values the application writes. */
  const Available: string := "в наличии"
  const Lent: string := "выдана"

  /** The exceptions the catalog raises, as values.
      InvalidYear is the ValueError of `add_book`, BookNotFound the KeyError of the
      lookups, LoadFailed and SaveFailed the RuntimeErrors of the storage layer.
      DecodeFailed is the UnicodeDecodeError of reading a file that is not UTF-8: the
      storage layer does not wrap it, and it is a ValueError. */
  datatype Error =
    | InvalidYear
    | BookNotFound(id: int)
    | LoadFailed
    | DecodeFailed
    | SaveFailed

  datatype Option<T> = None | Some(value: T)

  /** Result of an operation that returns a value or raises. */
  datatype Result<T> = Ok(value: T) | Err(error: Error)

  /** Result of an operation that returns nothing or raises. */
  datatype Outcome = Success | Failure(error: Error)
}
