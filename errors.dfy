/** The exceptions the ledger raises, one variant per distinct message. */
module Errors {

  datatype Error =
    // TimeZone constructor (ValueError)
    | EmptyTimeZoneName
    | MinuteOffsetOutOfRange
    | OffsetOutOfRange
    // timedelta(hours=..., minutes=...) beyond 999999999 days (OverflowError)
    | OffsetOverflow
    // Account constructor and setters (ValueError)
    | NegativeAccountNumber
    | EmptyName(field: string)
    | BelowMinimum(field: string, minimum: real)
    | NegativeInterestRate
    // Transaction_Code[...] with an unknown member name (KeyError)
    | UnknownTransactionKind(name: string)
    // parse_confirmation_code (ValueError, and OverflowError from datetime arithmetic)
    | InvalidConfirmationCode
    | InvalidTransactionDateTime
    | DateOutOfRange
}
