/** One iteration of the bot's main loop (`run()`), its force-close step
    (`maybe_force_close`) and the loop itself over a finite run of ticks. */
module TimeBot {
  import opened Wrappers
  import opened Failures
  import opened Calendar
  import opened Settings
  import opened Pricing
  import opened Broker
  import opened Entry

  /** The two orders a tick can send to the broker. */
  datatype Action = Close | Open(order: Order)

  /** The loop's three variables. */
  datatype EngineState = EngineState(lastTradeDate: Option<string>,
                                     entryTriggeredToday: bool,
                                     lastCheckedMinuteKey: Option<string>)

  /** Their values before the first tick. */
  const Initial := EngineState(None, false, None)

  /** The replies the broker gives to each request a tick may send, in the order the tick
      sends them; a tick reads only those it reaches. */
  datatype Replies = Replies(
    closeCheck: HttpReply<real>,         // has_open_long inside maybe_force_close
    closeReply: HttpReply<()>,           // force_close_long
    positionCheck: HttpReply<real>,      // has_open_long before the entry guards
    pricing: HttpReply<seq<Quote>>,      // get_pricing inside open_long_market
    orderReply: HttpReply<()>            // the order POST
  )

  datatype TickInput = TickInput(now: LocalTime, replies: Replies)

  /** What a tick leaves behind: the new loop state, the orders sent, and the exception
      that ended the tick, if one did. */
  datatype TickResult = TickResult(state: EngineState, actions: seq<Action>,
                                   failure: Option<Failure>)

  datatype CloseStep = CloseStep(actions: seq<Action>, failure: Option<Failure>)

  predicate IsCloseMinute(cfg: Config, now: LocalTime) {
    now.hour == cfg.closeAtHour && now.minute == cfg.closeAtMinute
  }

  predicate HasOpenAction(actions: seq<Action>) {
    exists a :: a in actions && a.Open?
  }

  /** A tick that sent an order and saw it accepted. */
  predicate Opened(r: TickResult) {
    r.failure.None? && HasOpenAction(r.actions)
  }

  /** `maybe_force_close`: in the close minute, close the long position if the broker
      reports one. It keeps no state of its own. */
  function MaybeForceClose(cfg: Config, now: LocalTime, replies: Replies): (c: CloseStep)
    ensures Close in c.actions <==>
      IsCloseMinute(cfg, now) && HasOpenLong(replies.closeCheck) == Ok(true)
    ensures !HasOpenAction(c.actions) && |c.actions| <= 1
    ensures c.failure.Some? ==> IsCloseMinute(cfg, now)
  {
    if !IsCloseMinute(cfg, now) then CloseStep([], None)
    else match HasOpenLong(replies.closeCheck)
      case Err(e) => CloseStep([], Some(e))
      case Ok(open) =>
        if !open then CloseStep([], None)
        else match ForceCloseLong(replies.closeReply)
          case Err(e) => CloseStep([Close], Some(e))
          case Ok(_) => CloseStep([Close], None)
  }

  /** The daily reset: on a date other than the one of the last trade, forget the
      entry flag and the dedup mark. */
  function DailyReset(s: EngineState, today: string): (r: EngineState)
    ensures r.lastTradeDate == s.lastTradeDate
    ensures s.lastTradeDate == Some(today) ==> r == s
    ensures s.lastTradeDate != Some(today) ==> !r.entryTriggeredToday && r.lastCheckedMinuteKey.None?
  {
    if s.lastTradeDate != Some(today) then s.(entryTriggeredToday := false, lastCheckedMinuteKey := None)
    else s
  }

  /** One pass through the body of `run()`'s loop, as a function of the state before it. */
  function Step(cfg: Config, s: EngineState, now: LocalTime, replies: Replies): (r: TickResult)
    requires ValidTime(now)
    ensures var c := MaybeForceClose(cfg, now, replies).actions;
      || (r.actions == c && !HasOpenAction(r.actions))
      || (|r.actions| == |c| + 1 && r.actions[..|c|] == c && r.actions[|c|].Open? && HasOpenAction(r.actions))
  {
    var today := TodayKey(now);
    var reset := DailyReset(s, today);
    var close := MaybeForceClose(cfg, now, replies);
    if cfg.onlyWeek && !IsWeekday(now) then TickResult(reset, close.actions, close.failure)
    else if close.failure.Some? then TickResult(reset, close.actions, close.failure)
    else match HasOpenLong(replies.positionCheck)
      case Err(e) => TickResult(reset, close.actions, Some(e))
      case Ok(open) =>
        if open || (cfg.onePerDay && reset.entryTriggeredToday) then TickResult(reset, close.actions, None)
        else match ShouldEnterNow(now, cfg.robustEntry, cfg.entryHour, cfg.entryMinute,
                                  reset.lastCheckedMinuteKey)
          case Err(e) => TickResult(reset, close.actions, Some(e))
          case Ok(fire) =>
            if !fire then
              TickResult(reset.(lastCheckedMinuteKey := Some(MinuteKey(now))), close.actions, None)
            else match GetPricing(replies.pricing)
              case Err(e) => TickResult(reset, close.actions, Some(e))
              case Ok(quote) =>
                var order := BuildOrder(cfg, quote.ask);
                var sent := close.actions + [Open(order)];
                assert Open(order) in sent && sent[..|close.actions|] == close.actions;
                match SubmitOrder(replies.orderReply)
                case Err(e) => TickResult(reset, sent, Some(e))
                case Ok(_) => TickResult(EngineState(Some(today), true, Some(MinuteKey(now))), sent, None)
  }

  // ---------------------------------------------------------------------------
  // Properties of one tick

  /** `lastTradeDate` changes only on a tick whose order went through, and then becomes
      today's key. */
  lemma StepTradeDate(cfg: Config, s: EngineState, now: LocalTime, replies: Replies)
    requires ValidTime(now)
    ensures var r := Step(cfg, s, now, replies);
      r.state.lastTradeDate == if Opened(r) then Some(TodayKey(now)) else s.lastTradeDate
  {
  }

  /** On a new date the old entry flag and dedup mark play no part: the tick behaves as
      if both had been cleared before any guard ran. Until the first trade of the date,
      this holds again on every tick, since `lastTradeDate` is still another date. */
  lemma StepNewDateForgets(cfg: Config, s: EngineState, now: LocalTime, replies: Replies)
    requires ValidTime(now)
    requires s.lastTradeDate != Some(TodayKey(now))
    ensures Step(cfg, s, now, replies) ==
            Step(cfg, EngineState(s.lastTradeDate, false, None), now, replies)
    ensures var r := Step(cfg, s, now, replies);
      && r.state.entryTriggeredToday == Opened(r)
      && (r.state.lastCheckedMinuteKey == None || r.state.lastCheckedMinuteKey == Some(MinuteKey(now)))
      && (!Opened(r) ==> r.state.lastTradeDate != Some(TodayKey(now)))
  {
  }

  /** No order is sent on a weekend tick when `onlyWeek` holds, after the force-close
      step raised, while the broker reports a long position, or once today's trade is
      done with `onePerDay`; and one is sent only when the entry rule says so and a price
      came back. `StepEntryFires` is the converse. */
  lemma StepEntryGuards(cfg: Config, s: EngineState, now: LocalTime, replies: Replies)
    requires ValidTime(now)
    ensures var r := Step(cfg, s, now, replies);
      HasOpenAction(r.actions) ==>
        && ReachesEntryRule(cfg, s, now, replies)
        && ShouldEnterNow(now, cfg.robustEntry, cfg.entryHour, cfg.entryMinute,
                          DailyReset(s, TodayKey(now)).lastCheckedMinuteKey) == Ok(true)
        && GetPricing(replies.pricing).Ok?
  {
  }

  /** Robust mode never sends an order before the target minute; exact mode never
      outside it. */
  lemma StepEntryMinute(cfg: Config, s: EngineState, now: LocalTime, replies: Replies)
    requires ValidTime(now)
    ensures var r := Step(cfg, s, now, replies);
      HasOpenAction(r.actions) ==>
        if cfg.robustEntry then ReachedMinute(now, cfg.entryHour, cfg.entryMinute)
        else now.hour == cfg.entryHour && now.minute == cfg.entryMinute
  {
    StepEntryGuards(cfg, s, now, replies);
    var key := DailyReset(s, TodayKey(now)).lastCheckedMinuteKey;
    if ValidClock(cfg.entryHour, cfg.entryMinute) {
      if cfg.robustEntry {
        RobustFiresIff(now, cfg.entryHour, cfg.entryMinute, key);
      } else {
        ExactFiresIff(now, cfg.entryHour, cfg.entryMinute, key);
      }
    }
  }

  /** A close order is sent exactly in the close minute when the broker reports a long
      position, on weekend ticks as well, whatever the loop state. */
  lemma StepForceClose(cfg: Config, s: EngineState, now: LocalTime, replies: Replies)
    requires ValidTime(now)
    ensures Close in Step(cfg, s, now, replies).actions <==>
      IsCloseMinute(cfg, now) && HasOpenLong(replies.closeCheck) == Ok(true)
  {
  }

  /** A tick that passes the weekend, force-close, position and `onePerDay` guards, and so
      evaluates the entry rule. */
  predicate ReachesEntryRule(cfg: Config, s: EngineState, now: LocalTime, replies: Replies) {
    && !(cfg.onlyWeek && !IsWeekday(now))
    && MaybeForceClose(cfg, now, replies).failure.None?
    && HasOpenLong(replies.positionCheck) == Ok(false)
    && !(cfg.onePerDay && DailyReset(s, TodayKey(now)).entryTriggeredToday)
  }

  /** How a tick leaves the three variables: set together on an accepted order; left as
      the daily reset made them when the tick raised or a guard stopped it; and, when the
      entry rule was evaluated and did not fire, the reset with the dedup mark moved to
      the current minute. */
  lemma StepStateUpdate(cfg: Config, s: EngineState, now: LocalTime, replies: Replies)
    requires ValidTime(now)
    ensures var r := Step(cfg, s, now, replies);
      var reset := DailyReset(s, TodayKey(now));
      && (Opened(r) ==> r.state == EngineState(Some(TodayKey(now)), true, Some(MinuteKey(now))))
      && (r.failure.Some? ==> r.state == reset)
      && (|| (cfg.onlyWeek && !IsWeekday(now))
          || HasOpenLong(replies.positionCheck) == Ok(true)
          || (cfg.onePerDay && reset.entryTriggeredToday)
          ==> r.state == reset)
      && (ReachesEntryRule(cfg, s, now, replies)
          && ShouldEnterNow(now, cfg.robustEntry, cfg.entryHour, cfg.entryMinute,
                            reset.lastCheckedMinuteKey) == Ok(false) ==>
            r.state == reset.(lastCheckedMinuteKey := Some(MinuteKey(now))))
  {
  }

  /** The converse of `StepEntryGuards`: a tick that reaches the entry rule, sees it fire,
      gets a price and has its order accepted sends exactly that order after the
      force-close step's, in either entry mode and whatever `onePerDay` is. */
  lemma StepEntryFires(cfg: Config, s: EngineState, now: LocalTime, replies: Replies)
    requires ValidTime(now) && ReachesEntryRule(cfg, s, now, replies)
    requires ShouldEnterNow(now, cfg.robustEntry, cfg.entryHour, cfg.entryMinute,
                            DailyReset(s, TodayKey(now)).lastCheckedMinuteKey) == Ok(true)
    requires GetPricing(replies.pricing).Ok? && SubmitOrder(replies.orderReply).Ok?
    ensures var r := Step(cfg, s, now, replies);
      && Opened(r)
      && r.actions == MaybeForceClose(cfg, now, replies).actions
                      + [Open(BuildOrder(cfg, GetPricing(replies.pricing).value.ask))]
  {
    var r := Step(cfg, s, now, replies);
    assert r.actions[|r.actions| - 1].Open?;
  }

  /** With `onlyWeek`, a Saturday or Sunday tick does the daily reset and the force-close
      step and nothing else. */
  lemma StepWeekend(cfg: Config, s: EngineState, now: LocalTime, replies: Replies)
    requires ValidTime(now) && cfg.onlyWeek && now.weekday >= 5
    ensures var c := MaybeForceClose(cfg, now, replies);
      Step(cfg, s, now, replies) == TickResult(DailyReset(s, TodayKey(now)), c.actions, c.failure)
    ensures !HasOpenAction(Step(cfg, s, now, replies).actions)
  {
  }

  /** While the broker reports a long position, a tick sends no order and changes nothing
      beyond the daily reset. */
  lemma StepPositionHeld(cfg: Config, s: EngineState, now: LocalTime, replies: Replies)
    requires ValidTime(now) && HasOpenLong(replies.positionCheck) == Ok(true)
    ensures var r := Step(cfg, s, now, replies);
      !HasOpenAction(r.actions) && r.state == DailyReset(s, TodayKey(now))
  {
  }

  /** Robust mode with `onePerDay` off sends a new order on every tick past the target
      minute at which the broker reports no position, whatever the loop state: the dedup
      mark does not stop it. */
  lemma RobustReentersWithoutOnePerDay(cfg: Config, s: EngineState, now: LocalTime, replies: Replies)
    requires ValidTime(now) && cfg.robustEntry && !cfg.onePerDay
    requires ValidClock(cfg.entryHour, cfg.entryMinute) && ReachedMinute(now, cfg.entryHour, cfg.entryMinute)
    requires !IsFirstMinute(Target(now, cfg.entryHour, cfg.entryMinute))
    requires !(cfg.onlyWeek && !IsWeekday(now)) && MaybeForceClose(cfg, now, replies).failure.None?
    requires HasOpenLong(replies.positionCheck) == Ok(false) && GetPricing(replies.pricing).Ok?
    ensures HasOpenAction(Step(cfg, s, now, replies).actions)
  {
    RobustFiresIff(now, cfg.entryHour, cfg.entryMinute, DailyReset(s, TodayKey(now)).lastCheckedMinuteKey);
  }

  // ---------------------------------------------------------------------------
  // Runs of ticks

  predicate ValidTicks(ticks: seq<TickInput>) {
    forall i :: 0 <= i < |ticks| ==> ValidTime(ticks[i].now)
  }

  /** The results of the ticks in order, each starting from the state the previous one left. */
  function Trace(cfg: Config, s: EngineState, ticks: seq<TickInput>): (trace: seq<TickResult>)
    requires ValidTicks(ticks)
    ensures |trace| == |ticks|
    decreases |ticks|
  {
    if ticks == [] then []
    else
      var r := Step(cfg, s, ticks[0].now, ticks[0].replies);
      [r] + Trace(cfg, r.state, ticks[1..])
  }

  lemma TraceCons(cfg: Config, s: EngineState, t: TickInput, rest: seq<TickInput>)
    requires ValidTime(t.now) && ValidTicks(rest)
    ensures ValidTicks([t] + rest)
    ensures var r := Step(cfg, s, t.now, t.replies);
      Trace(cfg, s, [t] + rest) == [r] + Trace(cfg, r.state, rest)
  {
    assert ([t] + rest)[1..] == rest;
  }

  /** A run of four ticks, spelled out. */
  lemma TraceOfFour(cfg: Config, s: EngineState, t0: TickInput, t1: TickInput, t2: TickInput, t3: TickInput)
    requires ValidTime(t0.now) && ValidTime(t1.now) && ValidTime(t2.now) && ValidTime(t3.now)
    ensures ValidTicks([t0, t1, t2, t3])
    ensures var r0 := Step(cfg, s, t0.now, t0.replies);
      var r1 := Step(cfg, r0.state, t1.now, t1.replies);
      var r2 := Step(cfg, r1.state, t2.now, t2.replies);
      var r3 := Step(cfg, r2.state, t3.now, t3.replies);
      Trace(cfg, s, [t0, t1, t2, t3]) == [r0, r1, r2, r3]
  {
    var r0 := Step(cfg, s, t0.now, t0.replies);
    var r1 := Step(cfg, r0.state, t1.now, t1.replies);
    var r2 := Step(cfg, r1.state, t2.now, t2.replies);
    TraceCons(cfg, r2.state, t3, []);
    TraceCons(cfg, r1.state, t2, [t3]);
    TraceCons(cfg, r0.state, t1, [t2, t3]);
    TraceCons(cfg, s, t0, [t1, t2, t3]);
    assert [t0] + [t1, t2, t3] == [t0, t1, t2, t3];
  }

  function Final(s: EngineState, trace: seq<TickResult>): EngineState {
    if trace == [] then s else trace[|trace| - 1].state
  }

  /** Once a trade is recorded for `day` with `onePerDay`, no later tick of that date sends
      an order, and the record stays. */
  lemma {:induction false} TradedDayStaysClosed(cfg: Config, s: EngineState, ticks: seq<TickInput>,
                                                day: string)
    requires cfg.onePerDay && s.entryTriggeredToday && s.lastTradeDate == Some(day)
    requires ValidTicks(ticks)
    requires forall i :: 0 <= i < |ticks| ==> TodayKey(ticks[i].now) == day
    ensures var trace := Trace(cfg, s, ticks);
      forall i :: 0 <= i < |trace| ==> !HasOpenAction(trace[i].actions)
    decreases |ticks|
  {
    if ticks != [] {
      var trace := Trace(cfg, s, ticks);
      var r := trace[0];
      var rest := ticks[1..];
      assert Trace(cfg, r.state, rest) == trace[1..];
      StepEntryGuards(cfg, s, ticks[0].now, ticks[0].replies);
      StepStateUpdate(cfg, s, ticks[0].now, ticks[0].replies);
      TradedDayStaysClosed(cfg, r.state, rest, day);
    }
  }

  /** With `onePerDay`, among the ticks of one date, after a tick whose order went through
      no later tick sends an order at all. */
  lemma {:induction false} OnePerDay(cfg: Config, s: EngineState, ticks: seq<TickInput>, day: string)
    requires cfg.onePerDay && ValidTicks(ticks)
    requires forall i :: 0 <= i < |ticks| ==> TodayKey(ticks[i].now) == day
    ensures var trace := Trace(cfg, s, ticks);
      forall i, j :: 0 <= i < j < |trace| && Opened(trace[i]) ==> !HasOpenAction(trace[j].actions)
    decreases |ticks|
  {
    if ticks != [] {
      var trace := Trace(cfg, s, ticks);
      var r := trace[0];
      var rest := ticks[1..];
      assert Trace(cfg, r.state, rest) == trace[1..];
      OnePerDay(cfg, r.state, rest, day);
      if Opened(r) {
        StepStateUpdate(cfg, s, ticks[0].now, ticks[0].replies);
        TradedDayStaysClosed(cfg, r.state, rest, day);
      }
    }
  }

  /** Once an order has gone through in a minute in exact mode, no later tick of that same
      minute sends one, whatever `onePerDay` says. */
  lemma {:induction false} ExactMinuteStaysClosed(cfg: Config, s: EngineState, ticks: seq<TickInput>,
                                                  key: string)
    requires !cfg.robustEntry && ValidTicks(ticks) && |key| == 12
    requires s.lastTradeDate == Some(key[..8]) && s.lastCheckedMinuteKey == Some(key)
    requires forall i :: 0 <= i < |ticks| ==> MinuteKey(ticks[i].now) == key
    ensures var trace := Trace(cfg, s, ticks);
      forall i :: 0 <= i < |trace| ==> !HasOpenAction(trace[i].actions)
    decreases |ticks|
  {
    if ticks != [] {
      var trace := Trace(cfg, s, ticks);
      var r := trace[0];
      var rest := ticks[1..];
      var now := ticks[0].now;
      assert Trace(cfg, r.state, rest) == trace[1..];
      assert TodayKey(now) == key[..8];
      StepEntryGuards(cfg, s, now, ticks[0].replies);
      StepStateUpdate(cfg, s, now, ticks[0].replies);
      if ValidClock(cfg.entryHour, cfg.entryMinute) {
        ExactFiresIff(now, cfg.entryHour, cfg.entryMinute, s.lastCheckedMinuteKey);
      }
      ExactMinuteStaysClosed(cfg, r.state, rest, key);
    }
  }

  /** In exact mode, among the ticks of one minute, after a tick whose order went through
      no later tick sends an order. */
  lemma {:induction false} ExactOncePerMinute(cfg: Config, s: EngineState, ticks: seq<TickInput>,
                                              key: string)
    requires !cfg.robustEntry && ValidTicks(ticks) && |key| == 12
    requires forall i :: 0 <= i < |ticks| ==> MinuteKey(ticks[i].now) == key
    ensures var trace := Trace(cfg, s, ticks);
      forall i, j :: 0 <= i < j < |trace| && Opened(trace[i]) ==> !HasOpenAction(trace[j].actions)
    decreases |ticks|
  {
    if ticks != [] {
      var trace := Trace(cfg, s, ticks);
      var r := trace[0];
      var rest := ticks[1..];
      assert Trace(cfg, r.state, rest) == trace[1..];
      ExactOncePerMinute(cfg, r.state, rest, key);
      if Opened(r) {
        var now := ticks[0].now;
        StepStateUpdate(cfg, s, now, ticks[0].replies);
        assert TodayKey(now) == key[..8];
        ExactMinuteStaysClosed(cfg, r.state, rest, key);
      }
    }
  }

  // A trading day under the default configuration (entry 16:55 robust, close 17:10, one
  // trade a day, 10 pips take-profit, no stop-loss, EUR_USD), on any weekday `d`, with
  // the ask at `ask`.

  /** The time `hour:minute:second` on the date of `d`. */
  function At(d: LocalTime, hour: nat, minute: nat, second: nat): LocalTime {
    d.(hour := hour, minute := minute, second := second)
  }

  predicate IsTradingDate(d: LocalTime) {
    ValidTime(d) && IsWeekday(d)
  }

  const FlatReply: HttpReply<real> := Reply(200, Some(0.0))
  const LongReply: HttpReply<real> := Reply(200, Some(10000.0))
  const DoneReply: HttpReply<()> := Reply(200, Some(()))

  function QuoteReply(ask: real): HttpReply<seq<Quote>> {
    Reply(200, Some([Quote(ask - 0.0002, ask)]))
  }

  /** The broker answers of one tick: `closeCheck`, `positionCheck`, and success for the rest. */
  function Answers(closeCheck: HttpReply<real>, positionCheck: HttpReply<real>, ask: real): Replies {
    Replies(closeCheck, DoneReply, positionCheck, QuoteReply(ask), DoneReply)
  }

  /** The state after the entry at 16:55. */
  function TradedState(d: LocalTime): EngineState {
    EngineState(Some(TodayKey(At(d, 16, 55, 0))), true, Some(MinuteKey(At(d, 16, 55, 0))))
  }

  function WaitingState(d: LocalTime): EngineState {
    EngineState(None, false, Some(MinuteKey(At(d, 16, 54, 59))))
  }

  lemma DefaultDayBeforeEntry(d: LocalTime, ask: real)
    requires IsTradingDate(d)
    ensures Step(DefaultConfig, Initial, At(d, 16, 54, 59), Answers(FlatReply, FlatReply, ask))
         == TickResult(WaitingState(d), [], None)
  {
    RobustFiresIff(At(d, 16, 54, 59), 16, 55, None);
  }

  lemma DefaultDayEntry(d: LocalTime, ask: real)
    requires IsTradingDate(d)
    ensures Step(DefaultConfig, WaitingState(d), At(d, 16, 55, 0), Answers(FlatReply, FlatReply, ask))
         == TickResult(TradedState(d), [Open(Order("EUR_USD", 10000, ask + 0.0010, None, 5))], None)
  {
    DefaultOrder(ask);
    RobustFiresIff(At(d, 16, 55, 0), 16, 55, None);
  }

  lemma DefaultDayHolding(d: LocalTime, ask: real)
    requires IsTradingDate(d)
    ensures Step(DefaultConfig, TradedState(d), At(d, 16, 55, 1), Answers(LongReply, LongReply, ask))
         == TickResult(TradedState(d), [], None)
  {
    assert TodayKey(At(d, 16, 55, 1)) == TodayKey(At(d, 16, 55, 0));
  }

  lemma DefaultDayClose(d: LocalTime, ask: real)
    requires IsTradingDate(d)
    ensures Step(DefaultConfig, TradedState(d), At(d, 17, 10, 0), Answers(LongReply, FlatReply, ask))
         == TickResult(TradedState(d), [Close], None)
  {
    assert TodayKey(At(d, 17, 10, 0)) == TodayKey(At(d, 16, 55, 0));
  }

  /** Nothing at 16:54:59; one order at 16:55:00 with take-profit at the ask plus 0.0010
      and no stop-loss; nothing at 16:55:01 while the position is open; one close at
      17:10:00 and no new order after it, the day's trade being done. */
  lemma DefaultDay(d: LocalTime, ask: real)
    requires IsTradingDate(d)
    ensures var ticks := [
        TickInput(At(d, 16, 54, 59), Answers(FlatReply, FlatReply, ask)),
        TickInput(At(d, 16, 55, 0), Answers(FlatReply, FlatReply, ask)),
        TickInput(At(d, 16, 55, 1), Answers(LongReply, LongReply, ask)),
        TickInput(At(d, 17, 10, 0), Answers(LongReply, FlatReply, ask))];
      ValidTicks(ticks) &&
      Trace(DefaultConfig, Initial, ticks) == [
        TickResult(WaitingState(d), [], None),
        TickResult(TradedState(d), [Open(Order("EUR_USD", 10000, ask + 0.0010, None, 5))], None),
        TickResult(TradedState(d), [], None),
        TickResult(TradedState(d), [Close], None)]
  {
    DefaultDayBeforeEntry(d, ask);
    DefaultDayEntry(d, ask);
    DefaultDayHolding(d, ask);
    DefaultDayClose(d, ask);
    TraceOfFour(DefaultConfig, Initial,
                TickInput(At(d, 16, 54, 59), Answers(FlatReply, FlatReply, ask)),
                TickInput(At(d, 16, 55, 0), Answers(FlatReply, FlatReply, ask)),
                TickInput(At(d, 16, 55, 1), Answers(LongReply, LongReply, ask)),
                TickInput(At(d, 17, 10, 0), Answers(LongReply, FlatReply, ask)));
  }

  // ---------------------------------------------------------------------------
  // The loop

  /** The loop of `run()` with its three local variables as fields. */
  class Engine {
    const cfg: Config
    var lastTradeDate: Option<string>
    var entryTriggeredToday: bool
    var lastCheckedMinuteKey: Option<string>

    function State(): EngineState
      reads this
    {
      EngineState(lastTradeDate, entryTriggeredToday, lastCheckedMinuteKey)
    }

    constructor (cfg: Config)
      ensures this.cfg == cfg && State() == Initial
    {
      this.cfg := cfg;
      lastTradeDate := None;
      entryTriggeredToday := false;
      lastCheckedMinuteKey := None;
    }

    /** One iteration of the loop body, statement by statement; an early `return` stands
        for each `continue` and for each exception the loop catches. */
    method Tick(now: LocalTime, replies: Replies) returns (actions: seq<Action>, failure: Option<Failure>)
      requires ValidTime(now)
      modifies this
      ensures TickResult(State(), actions, failure) == Step(cfg, old(State()), now, replies)
    {
      var today := TodayKey(now);

      if lastTradeDate != Some(today) {
        entryTriggeredToday := false;
        lastCheckedMinuteKey := None;
      }

      if cfg.onlyWeek && !IsWeekday(now) {
        var close := MaybeForceClose(cfg, now, replies);
        actions, failure := close.actions, close.failure;
        return;
      }

      var close := MaybeForceClose(cfg, now, replies);
      actions, failure := close.actions, close.failure;
      if failure.Some? {
        return;
      }

      var open := HasOpenLong(replies.positionCheck);
      if open.Err? {
        failure := Some(open.error);
        return;
      }
      if open.value {
        return;
      }

      if cfg.onePerDay && entryTriggeredToday {
        return;
      }

      var enter := ShouldEnterNow(now, cfg.robustEntry, cfg.entryHour, cfg.entryMinute,
                                  lastCheckedMinuteKey);
      if enter.Err? {
        failure := Some(enter.error);
        return;
      }
      if enter.value {
        var quote := GetPricing(replies.pricing);
        if quote.Err? {
          failure := Some(quote.error);
          return;
        }
        actions := actions + [Open(BuildOrder(cfg, quote.value.ask))];
        var posted := SubmitOrder(replies.orderReply);
        if posted.Err? {
          failure := Some(posted.error);
          return;
        }
        entryTriggeredToday := true;
        lastTradeDate := Some(today);
        lastCheckedMinuteKey := Some(MinuteKey(now));
      } else {
        lastCheckedMinuteKey := Some(MinuteKey(now));
      }
    }

    /** The loop over a finite run of ticks: each tick starts from the state the previous
        one left, and the run's results are those of `Trace`. */
    method RunTicks(ticks: seq<TickInput>) returns (trace: seq<TickResult>)
      requires ValidTicks(ticks)
      modifies this
      ensures trace == Trace(cfg, old(State()), ticks)
      ensures State() == Final(old(State()), trace)
    {
      trace := [];
      var i := 0;
      while i < |ticks|
        invariant 0 <= i <= |ticks|
        invariant trace + Trace(cfg, State(), ticks[i..]) == Trace(cfg, old(State()), ticks)
        invariant State() == Final(old(State()), trace)
      {
        var actions, failure := Tick(ticks[i].now, ticks[i].replies);
        trace := trace + [TickResult(State(), actions, failure)];
        i := i + 1;
      }
    }
  }
}
