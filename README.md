# OANDA time bot: a Dafny model of the entry/exit decision engine

The bot opens one long market order on a single instrument at a configured local
wall-clock time, with a take-profit and an optional stop-loss attached. It
force-closes the long position at a second configured time. Once a second, the loop in
`run()` reads the local clock. From that time, the broker's reported position and three
loop variables (`last_trade_date`, `entry_triggered_today`, `last_checked_minute_key`)
it decides whether to close, to open or to do nothing.

The model is organised as follows:

- `calendar.dfy` (module `Calendar`): local time as integers. It holds the two keys
  `today_key` (`%Y%m%d`) and `minute_key` (`%Y%m%d%H%M`), `is_weekday`, Python's
  datetime comparison, and `target - 1 minute`. A day numbering is the reference for
  that last one.
- `settings.dfy` (module `Settings`): the configuration as an immutable datatype, with
  the defaults used when no variable is set.
- `pricing.dfy` (module `Pricing`): `pip_size_for`, `price_decimals`, and the
  take-profit/stop-loss order built by `open_long_market`.
- `broker.dfy` (module `Broker`): what the bot makes of each broker reply. That covers
  `raise_for_status`, a 404 read as "no position" or "already closed", an empty price
  list, and an unreadable body.
- `entry.dfy` (module `Entry`): `should_enter_now` in robust and in exact mode.
- `timebot.dfy` (module `TimeBot`): `maybe_force_close` and one pass of the loop body as
  the function `Step`. `Trace` folds `Step` over a run of ticks. The class `Engine`
  holds the three loop variables as fields: its method `Tick` follows the loop body
  statement by statement and is proved equal to `Step`, and `RunTicks` is the loop over
  a finite run of ticks.

Each broker request a tick may send is given the reply it received, as a value. Each
exception the loop catches ends the tick early, with a `Failure` value saying which one.

Four behaviours of the code are worth knowing:

- `last_trade_date` is written only when an order goes through (oanda_timebot.py:205),
  not at every daily reset. So the reset runs again on every tick of a date until that
  date's first trade (`StepNewDateForgets`).
- The dedup mark is not left empty after a new-date tick. Line 212 sets it to the
  current minute whenever the entry rule is evaluated and does not fire.
- The daily reset happens before any broker call, so a tick that then raises still
  leaves the reset applied.
- Robust mode fires "once" only because of `onePerDay` or the position guard. Without
  them it sends a new order on every flat tick past the target
  (`RobustReentersWithoutOnePerDay`).

## Model

| member | source | states |
|---|---|---|
| `Calendar.TodayKey` | oanda_timebot.py:66-67 | the day key is 8 decimal digits |
| `Calendar.MinuteKey` | oanda_timebot.py:221-222 | the minute key is 12 decimal digits whose first 8 are the day key of the same time |
| `Calendar.TodayKeyFields` | oanda_timebot.py:66-67 | the day key is laid out as `%Y%m%d`: its characters 0-3, 4-5 and 6-7 read back as the year, the month and the day |
| `Calendar.MinuteKeyFields` | oanda_timebot.py:221-222 | the last four characters of the minute key are `%H%M`: characters 8-9 read back as the hour and 10-11 as the minute |
| `Calendar.IsWeekday` | oanda_timebot.py:69-71 | Monday to Friday (weekday 0 to 4); stated by `TimeBot.StepWeekend`, which shows that under `onlyWeek` a tick on weekday 5 or 6 sends no order |
| `Calendar.NotBefore` | oanda_timebot.py:230 | Python's `now_local >= target` on the wall clock, lexicographic on date and time; stated by `Entry.NotBeforeTarget` |
| `Calendar.DecimalOfPad` | oanda_timebot.py:221-222 | a zero-padded field reads back as the number printed, when it fits its width |
| `Calendar.TodayKeyInjective` | oanda_timebot.py:66-67 | two day keys are equal iff the dates are equal |
| `Calendar.MinuteKeyInjective` | oanda_timebot.py:221-222 | two minute keys are equal iff date, hour and minute are equal |
| `Calendar.MinuteBefore` | oanda_timebot.py:230 | `target - 1 minute` is a valid time exactly one minute earlier on the day numbering, seconds kept; it is absent (OverflowError) only at 0001-01-01 00:00 |
| `Pricing.PipSize` | oanda_timebot.py:73-76 | `pip_size_for`; stated by `Pricing.AutoPipSize` and `Pricing.CustomPipSize` |
| `Pricing.PriceDecimals` | oanda_timebot.py:78-80 | `price_decimals`; stated by `Pricing.AutoPipSize` and `Pricing.CustomPipSize`, five decimals iff the pip is at most 0.0001 |
| `Pricing.BuildOrder` | oanda_timebot.py:109-134 | the order `open_long_market` submits; stated by `Pricing.OrderBracketsAsk` and `Pricing.DefaultOrder` |
| `Pricing.AutoPipSize` | oanda_timebot.py:73-80 | in automatic mode the pip is 0.01 with 3 decimals iff the instrument ends with "JPY", else 0.0001 with 5 decimals |
| `Pricing.CustomPipSize` | oanda_timebot.py:73-80 | otherwise the pip is the configured one, with 5 decimals iff it is at most 0.0001, else 3 |
| `Pricing.PipModeSpellings` | oanda_timebot.py:74 | the mode test ignores case: "Auto (FX)" and "AUTO" are automatic, "Personalizado" and "Aut" are not |
| `Pricing.OrderBracketsAsk` | oanda_timebot.py:109-134 | take-profit is `tpPips` pips above the ask; a stop-loss `slPips` pips below it is attached iff `slPips > 0`; with a positive pip, TP > ask > SL |
| `Pricing.DefaultOrder` | oanda_timebot.py:109-134 | under the default configuration the order is EUR_USD, 10000 units, TP = ask + 0.0010, no stop-loss, 5 decimals |
| `Broker.HasOpenLong` | oanda_timebot.py:99-107 | reports a long position iff the reply is a non-error status with positive long units; 404 reads as flat; no reply, 4xx/5xx other than 404 and an unreadable body raise |
| `Broker.ForceCloseLong` | oanda_timebot.py:141-151 | 404 reads as "nothing to close"; no reply, another 4xx/5xx, or an unreadable body raise |
| `Broker.GetPricing` | oanda_timebot.py:86-97 | succeeds iff the reply is a non-error status with a readable, non-empty price list, and then gives the first price |
| `Broker.SubmitOrder` | oanda_timebot.py:136-139 | the POST succeeds iff the reply is a non-error status with a readable body |
| `Entry.ShouldEnterNow` | oanda_timebot.py:224-236 | `should_enter_now`; stated by `Entry.RobustFiresIff`, `Entry.ExactFiresIff` and `Entry.OutOfRangeEntryTimeRaises` |
| `Entry.NotBeforeTarget` | oanda_timebot.py:226-230 | against today's `hh:mm:00` target, `now >= target` holds iff the current hour and minute are at or past `hh:mm` |
| `Entry.RobustKeyClauseRedundant` | oanda_timebot.py:224-230 | once the target minute is reached on the current date, the minute key of now differs from that of the minute before the target |
| `Entry.RobustFiresIff` | oanda_timebot.py:224-230 | robust mode fires iff the hour and minute are at or past the target; it ignores the dedup mark; it raises only for a 00:00 target on 0001-01-01 |
| `Entry.ExactFiresIff` | oanda_timebot.py:224-236 | exact mode never raises for a valid target and fires iff now is in the target minute and that minute's key is not the dedup mark |
| `Entry.OutOfRangeEntryTimeRaises` | oanda_timebot.py:224-226 | an entry hour or minute that `datetime` refuses raises in both modes |
| `TimeBot.MaybeForceClose` | oanda_timebot.py:238-244 | a close is sent iff the time is the close minute and the broker reports a long position; it sends no order, and it raises only in the close minute |
| `TimeBot.DailyReset` | oanda_timebot.py:172-175 | on a date other than that of the last trade the entry flag is cleared and the dedup mark emptied; on the date of the last trade nothing changes; `last_trade_date` itself is never touched |
| `TimeBot.Step` | oanda_timebot.py:169-212 | a tick sends the force-close step's orders followed by at most one market order |
| `TimeBot.StepTradeDate` | oanda_timebot.py:173-205 | `last_trade_date` changes only on a tick whose order went through, and then becomes today's key |
| `TimeBot.StepNewDateForgets` | oanda_timebot.py:172-175 | on a new date the old entry flag and dedup mark do not affect the tick; afterwards the flag is set iff an order went through, the mark is empty or the current minute, and without a trade the date is still "new" |
| `TimeBot.StepEntryGuards` | oanda_timebot.py:177-201 | an order is sent only on a tick that is not a weekend tick under `onlyWeek`, whose force-close step did not raise, that sees no long position, is not blocked by `onePerDay` after today's trade, fires the entry rule and has a price |
| `TimeBot.StepEntryMinute` | oanda_timebot.py:198 | robust mode never sends an order before the target minute; exact mode sends one only inside it |
| `TimeBot.StepForceClose` | oanda_timebot.py:177-185 | a close is sent iff the time is the close minute and the broker reports a long position, on weekend ticks too and whatever the loop state |
| `TimeBot.StepStateUpdate` | oanda_timebot.py:172-212 | an accepted order sets all three variables together; a tick that raises, or that a weekend, position or `onePerDay` guard stops, leaves them as the reset made them; a tick that evaluates the entry rule without firing leaves the reset with the dedup mark set to the current minute |
| `TimeBot.StepEntryFires` | oanda_timebot.py:177-212 | a tick that passes every guard, fires the entry rule, gets a price and has its order accepted sends exactly the order built from the ask, after the force-close step's orders, in either mode |
| `TimeBot.StepWeekend` | oanda_timebot.py:177-182 | with `onlyWeek` a weekend tick does the reset and the force-close step only, and sends no order |
| `TimeBot.StepPositionHeld` | oanda_timebot.py:187-190 | while a long position is reported, no order is sent and nothing changes beyond the reset |
| `TimeBot.RobustReentersWithoutOnePerDay` | oanda_timebot.py:187-198 | in robust mode without `onePerDay`, every flat tick past the target sends an order, whatever the loop state |
| `TimeBot.Trace` | oanda_timebot.py:167-219 | a run of ticks has one result per tick, each starting from the state the previous tick left |
| `TimeBot.TradedDayStaysClosed` | oanda_timebot.py:192-195 | with `onePerDay`, once today's trade is recorded, no later tick of that date sends an order |
| `TimeBot.OnePerDay` | oanda_timebot.py:192-205 | with `onePerDay`, among the ticks of one date, no order is sent after a tick whose order went through |
| `TimeBot.ExactMinuteStaysClosed` | oanda_timebot.py:207-212 | in exact mode, once a trade is recorded for a minute, no later tick of that minute sends an order |
| `TimeBot.ExactOncePerMinute` | oanda_timebot.py:231-236 | in exact mode, among the ticks of one minute, no order is sent after a tick whose order went through, whatever `onePerDay` is |
| `TimeBot.DefaultDay` | oanda_timebot.py:161-212 | under the default configuration, on any weekday and for any ask: nothing at 16:54:59, one order at 16:55:00 with TP = ask + 0.0010 and no SL, nothing at 16:55:01 while holding, one close at 17:10:00 and no new order |
| `TimeBot.Engine.constructor` | oanda_timebot.py:161-165 | the three loop variables start empty, false and empty |
| `TimeBot.Engine.Tick` | oanda_timebot.py:169-212 | one pass of the loop body; new state, orders sent and exception raised are exactly those of `Step` |
| `TimeBot.Engine.RunTicks` | oanda_timebot.py:167-219 | the loop over a finite run of ticks yields `Trace` and ends in its final state |

## Left out

- app.py is not part of this model. It only runs the loop in a daemon thread and serves a constant liveness page.
- The HTTP transport is not modelled. Each request's reply (status code, readable body or not, or no reply) is an input of the tick, and its content is already parsed: long units as a real, prices as a list.
- Time zones are not modelled. That covers `get_tz`, `local_now`, `tzinfo.localize`, the UTC fallback and daylight-saving ambiguity. Local time is an input, and `now >= target` is compared on the wall clock, which differs from Python only across a DST change. `DateOverflow` stands only for the `- timedelta(minutes=1)` at oanda_timebot.py:230; an overflow inside `localize` at line 226 near the ends of the date range is not modelled, so `Entry.RobustFiresIff` and `Entry.ExactFiresIff` say when the wall-clock computation raises, not when the zone lookup does.
- Entry.RobustFiresIff and Entry.ExactFiresIff: their error cases cover the wall-clock arithmetic only. An error that the zone's `localize` could raise for targets at the very ends of the date range is not modelled.
- The weekday is taken from the clock as given. The model does not check that it agrees with the date.
- Rounding and binary floating point are not modelled. That covers `round_price`, `tp_pips * pip` on floats and the float comparison in `price_decimals`. Prices are exact reals, and the number of decimals is carried in the order rather than applied.
- Configuration parsing from the environment is not modelled. That covers `int()`/`float()` failures at start-up and the truthy-string parsing of flags. The configuration is a value; the time zone name, account and credentials are not part of it.
- `time.sleep`, the endless `while True` and all printing are not modelled. `RunTicks` runs a finite sequence of ticks.
- The constant order fields (`MARKET`, `FOK`, `DEFAULT`) and the JSON layout of the order are not fields of `Order`.
- Calendar.TodayKey: every year is zero-padded to four digits. On platforms whose `strftime` does not pad years before 1000, the keys of such dates are shorter.
- Broker.HasOpenLong: the bot's `KeyError`/`ValueError` while reading a body are folded into one "unreadable body" case. The same goes for the other reply readers.
- Exceptions that escape `except Exception` (such as `KeyboardInterrupt`) are not modelled; they end the process.
