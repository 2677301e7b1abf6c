/** Values shared by every table of the clinic backend: optional values, the
    outcome of a route, and the opaque scalar types the columns hold. */
module Common {

  datatype Option<+T> = None | Some(value: T)

  /** The error a route reports; it stands for the HTTP response the route builds. */
  datatype Failure =
    | NotFound        // 404 "Parent not found", or edit_kid's redirect to /kids
    | AlreadyExists   // 400 "Phone already exists", "Kid already exists", "Drug with name ... already exists"
    | IntegrityError  // 400 "Drug ... is existed", after a uniqueness violation was rolled back
    | ServerError     // 500 from the import's outer handler, after the rollback
    | Invalid         // "invalid date format" raised by the date validator

  datatype Result<+T> = Ok(value: T) | Err(failure: Failure)

  /** A point in time (the value given for "now"); only compared for equality. */
  type Time = int

  /** A value of a Date or DateTime column: a day number, with the second of the day for a datetime. */
  datatype Temporal = DateTime(day: int, second: int) | Date(day: int)

  /** A floating-point column value, kept opaque. */
  datatype Float = Float(bits: int)
}
