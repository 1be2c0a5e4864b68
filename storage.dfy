/** The catalog file (src/storage.py). The file is read and written whole; its JSON
    text is abstracted to the sequence of records it encodes. */
module Persistence {
  import opened Books

  /** The backing file as the program sees it. */
  class Storage {
    /** Whether the file is present. */
    var present: bool
    /** The records the file encodes, in file order (meaningful while the file is present). */
    var data: seq<Book>
    /** The file is present but cannot be opened for reading (its permissions). A save
        keeps the permissions of an existing file; a file a save creates is readable. */
    var readProtected: bool
    /** The file's bytes are not UTF-8. */
    var undecodable: bool
    /** The file's text does not parse as JSON. */
    var malformed: bool
    /** Opening the file for writing fails (permissions, missing directory). */
    const unwritable: bool

    constructor (present: bool, data: seq<Book>, readProtected: bool, undecodable: bool, malformed: bool,
                 unwritable: bool)
      ensures this.present == present && this.data == data
      ensures this.readProtected == readProtected
      ensures this.undecodable == undecodable && this.malformed == malformed
      ensures this.unwritable == unwritable
    {
      this.present := present;
      this.data := data;
      this.readProtected := readProtected;
      this.undecodable := undecodable;
      this.malformed := malformed;
      this.unwritable := unwritable;
    }

    /** What a load returns in the current state. A file that cannot be opened fails
        first; reading decodes the bytes before the JSON text is parsed. */
    function Loaded(): Result<seq<Book>>
      reads this
    {
      if !present then Ok([])
      else if readProtected then Err(LoadFailed)
      else if undecodable then Err(DecodeFailed)
      else if malformed then Err(LoadFailed)
      else Ok(data)
    }

    /** `load_data`: the empty list for a missing file, the file's records otherwise,
        and an error (never a silently empty list) when the file cannot be read: the
        wrapped RuntimeError for a failed open or parse, and the decoding error as it is. */
    method Load() returns (r: Result<seq<Book>>)
      ensures !present ==> r == Ok([])
      ensures present && readProtected ==> r == Err(LoadFailed)
      ensures present && !readProtected && undecodable ==> r == Err(DecodeFailed)
      ensures present && !readProtected && !undecodable && malformed ==> r == Err(LoadFailed)
      ensures present && !readProtected && !undecodable && !malformed ==> r == Ok(data)
      ensures r.Err? ==> r.error == LoadFailed || r.error == DecodeFailed
      ensures r == Loaded()
    {
      if !present {
        return Ok([]);
      }
      if readProtected {
        return Err(LoadFailed);
      }
      if undecodable {
        return Err(DecodeFailed);
      }
      if malformed {
        return Err(LoadFailed);
      }
      r := Ok(data);
    }

    /** `save_data`: replaces the whole content of the file with `xs` (mode "w"),
        creating the file when it is missing; a failed open is reported and
        leaves the file as it was. The content written is well-formed UTF-8 JSON, so a
        later load gives exactly `xs` back, unless the file's permissions forbid reading
        it, which writing does not change. */
    method Save(xs: seq<Book>) returns (r: Outcome)
      modifies this
      ensures unwritable ==> r == Failure(SaveFailed) && unchanged(this)
      ensures !unwritable ==>
                && r == Success && present && data == xs && !undecodable && !malformed
                && readProtected == (old(present) && old(readProtected))
      ensures !unwritable && !readProtected ==> Loaded() == Ok(xs)
      ensures !unwritable && readProtected ==> Loaded() == Err(LoadFailed)
    {
      if unwritable {
        return Failure(SaveFailed);
      }
      present, data, readProtected, undecodable, malformed := true, xs, present && readProtected, false, false;
      r := Success;
    }
  }
}
