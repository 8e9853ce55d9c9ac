/** The exceptions that can end a tick of the bot early. Every one of them is caught by the
    loop in `run()`, logged, and the tick ends there. */
module Failures {

  datatype Failure =
    | Transport                 // no reply at all: timeout, connection error
    | HttpStatus(code: int)     // `raise_for_status` on a 4xx or 5xx reply
    | Malformed                 // the reply body could not be read as the expected JSON
    | NoPrices                  // the pricing reply listed no prices
    | InvalidEntryTime          // `datetime(...)` refused the configured entry hour or minute
    | DateOverflow              // `target - timedelta(minutes=1)` fell before year 1
}
