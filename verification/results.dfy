/** Failure-carrying values shared by every part of the model.

    The source signals failure by raising Python exceptions; the model returns
    an `Err` carrying an `Error` that names which exception the source raises
    and on what input. */
module Results {

  /** The conventional optional value (Python's `None` or a value). */
  datatype Option<+T> = None | Some(value: T)

  /** Why an operation of the model fails. */
  datatype Error =
      /** `key, value = line.split(' ', 1)` on a header line without a space (ValueError). */
    | MalformedHeaderLine(line: string)
      /** `sha, obj_type, size_str = header.split()` on a header without exactly three fields (ValueError). */
    | MalformedBatchHeader(header: string)
      /** `int(size_str)` on a token that is not an integer literal (ValueError). */
    | InvalidSize(token: string)
      /** `read(n)` on a buffered stream with `n` below -1 (ValueError). */
    | InvalidReadSize(n: int)
      /** `header.decode()` on bytes that are not valid UTF-8 (UnicodeDecodeError). */
    | UndecodableHeader(bytes: seq<int>)
      /** `name, sha = line.split(None, 1)` on a line with fewer than two fields (ValueError). */
    | MalformedBranchLine(line: string)
      /** Reading an attribute a value does not have (AttributeError). */
    | MissingAttribute(attribute: string)
      /** An exception raised by code outside the model (a failed `git` call, a loader), by class name and text. */
    | Raised(kind: string, message: string)

  /** A value or the error that stopped the computation; usable with `:-`. */
  datatype Result<+T> = Ok(value: T) | Err(error: Error) {

    predicate IsFailure() {
      Err?
    }

    function PropagateFailure<U>(): Result<U>
      requires Err?
    {
      Err(error)
    }

    function Extract(): T
      requires Ok?
    {
      value
    }
  }
}
