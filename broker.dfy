/** The broker calls as the bot reads their replies (`get_pricing`, `has_open_long`,
    `force_close_long` and the POST of `open_long_market`). The HTTP exchange itself is
    not modelled: each call is given the reply it received, and the functions here say
    what the bot makes of it. */
module Broker {
  import opened Wrappers
  import opened Failures

  /** What a request came back with: nothing (timeout, connection error), or a status and
      a body that could (`Some`) or could not (`None`) be read as the expected JSON. */
  datatype HttpReply<T> = NoReply | Reply(status: int, body: Option<T>)

  /** `raise_for_status` raises on 4xx and 5xx. */
  predicate RaisesForStatus(status: int) {
    400 <= status < 600
  }

  /** `has_open_long`: the body is the position's long units ("0" when absent). */
  function HasOpenLong(reply: HttpReply<real>): (r: Result<bool, Failure>)
    ensures r == Ok(false) <==> (reply.Reply? &&
      (reply.status == 404 || (!RaisesForStatus(reply.status) && reply.body.Some? && reply.body.value <= 0.0)))
    ensures r == Ok(true) <==> (reply.Reply? && !RaisesForStatus(reply.status) &&
      reply.body.Some? && reply.body.value > 0.0)
  {
    match reply
    case NoReply => Err(Transport)
    case Reply(status, body) =>
      if status == 404 then Ok(false)
      else if RaisesForStatus(status) then Err(HttpStatus(status))
      else if body.None? then Err(Malformed)
      else Ok(body.value > 0.0)
  }

  datatype CloseOutcome = Closed | NothingToClose

  /** `force_close_long`: 200/201 is the broker's answer, 404 means already flat. */
  function ForceCloseLong(reply: HttpReply<()>): (r: Result<CloseOutcome, Failure>)
    ensures r == Ok(NothingToClose) <==> reply.Reply? && reply.status == 404
    ensures r.Err? <==> (reply.NoReply? ||
      (reply.status != 404 && (RaisesForStatus(reply.status) || reply.body.None?)))
  {
    match reply
    case NoReply => Err(Transport)
    case Reply(status, body) =>
      if status == 200 || status == 201 then (if body.None? then Err(Malformed) else Ok(Closed))
      else if status == 404 then Ok(NothingToClose)
      else if RaisesForStatus(status) then Err(HttpStatus(status))
      else if body.None? then Err(Malformed)
      else Ok(Closed)
  }

  datatype Quote = Quote(bid: real, ask: real)

  /** `get_pricing`: the first price listed; an empty list raises. A 404 here is an
      error like any other 4xx. */
  function GetPricing(reply: HttpReply<seq<Quote>>): (r: Result<Quote, Failure>)
    ensures r.Ok? <==> (reply.Reply? && !RaisesForStatus(reply.status) &&
      reply.body.Some? && |reply.body.value| > 0)
    ensures r.Ok? ==> r.value == reply.body.value[0]
  {
    match reply
    case NoReply => Err(Transport)
    case Reply(status, body) =>
      if RaisesForStatus(status) then Err(HttpStatus(status))
      else if body.None? then Err(Malformed)
      else if |body.value| == 0 then Err(NoPrices)
      else Ok(body.value[0])
  }

  /** The POST of the order: any 4xx or 5xx raises, and so does an unreadable body. */
  function SubmitOrder(reply: HttpReply<()>): (r: Result<(), Failure>)
    ensures r.Ok? <==> reply.Reply? && !RaisesForStatus(reply.status) && reply.body.Some?
  {
    match reply
    case NoReply => Err(Transport)
    case Reply(status, body) =>
      if RaisesForStatus(status) then Err(HttpStatus(status))
      else if body.None? then Err(Malformed)
      else Ok(())
  }
}
