/** Shared vocabulary of the hotel model: identifiers, dates, timestamps,
    money, and the tagged outcome every service operation returns instead of
    throwing. */
module Base {

  /** Opaque identifiers (UUID strings in the system), supplied by the caller. */
  type Id = string

  /** A calendar date as a day ordinal: `d + 1` is the day after `d`. */
  type Day = int

  /** A point in time, used for the created/updated timestamps. */
  type Instant = int

  /** An amount of money in minor currency units (cents). */
  type Money = int

  /** A value that may be absent (a nullable column or request field). */
  datatype Option<+T> = None | Some(value: T)

  /** The business rule a rejected request broke. */
  datatype BusinessRule =
    | CheckoutNotAfterCheckin
    | CheckinInPast
    | CheckinTooEarly
    | DuplicateRoomNumber

  /** The three kinds of failure the services raise. */
  datatype Error =
    | BusinessError(rule: BusinessRule)
    | NotFound
    | Conflict

  /** The value an operation produces, or the error it raises. */
  datatype Result<+T> = Ok(value: T) | Err(error: Error)

  /** The outcome of a check that produces no value. */
  datatype Outcome = Pass | Fail(error: Error)
}
