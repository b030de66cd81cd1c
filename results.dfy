/** The error kinds the contact directory raises, and the wrappers that carry
    either a value or one of those errors instead of an exception. */
module Results {

  /** One constructor per distinct failure of the directory: the Python code
      raises a ValueError or a KeyError with a message naming the cause. */
  datatype Error =
    | InvalidName          // Name: not letters only, or empty
    | PhoneNotDigits       // Phone: not all digits (or empty)
    | PhoneWrongLength     // Phone: digits, but not exactly ten
    | DuplicatePhone       // Record.add_phone: number already present
    | PhoneNotFound        // Record.edit_phone: old number absent
    | InvalidDateFormat    // Birthday: does not parse as DD.MM.YYYY
    | DateOutOfRange       // a date that does not exist: 29 February of a
                           // common year, or a date after the year 9999
    | RecordNotFound       // AddressBook.delete: no such key

  datatype Option<+T> = None | Some(value: T)

  datatype Result<+T> = Success(value: T) | Failure(error: Error)

  /** The outcome of an operation that returns nothing or raises. */
  datatype Outcome = Pass | Fail(error: Error)
}
