/** The errors the account and transaction tables report. */
module Errors {

  datatype DbError =
    | OperationNotPermitted
    | NegativeAmountEncountered
    | TransactionAlreadyExists
    | TransactionNotFound
    | TransactionNotInDispute
    | NotEnoughAvailableCredit
    | NotEnoughHeldValue
    | ClientNotFound
    | ClientIdMismatch
}
