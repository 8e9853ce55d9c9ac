/** `should_enter_now`: whether the entry time has come, in robust or in exact mode. */
module Entry {
  import opened Wrappers
  import opened Failures
  import opened Calendar

  /** The hours and minutes `datetime(...)` accepts. */
  predicate ValidClock(hh: int, mm: int) {
    0 <= hh < 24 && 0 <= mm < 60
  }

  /** The entry target: today's date at `hh:mm:00`. */
  function Target(now: LocalTime, hh: nat, mm: nat): LocalTime {
    LocalTime(now.year, now.month, now.day, hh, mm, 0, now.weekday)
  }

  /** The current hour and minute are at or past `hh:mm`. */
  predicate ReachedMinute(now: LocalTime, hh: int, mm: int) {
    now.hour > hh || (now.hour == hh && now.minute >= mm)
  }

  /** `should_enter_now`. The target is built first in both modes, so an hour or minute
      that `datetime` refuses raises in both. In robust mode the `and` short-circuits:
      the minute before the target is only formed once the target is reached. */
  function ShouldEnterNow(now: LocalTime, robust: bool, hh: int, mm: int,
                          lastMinuteKey: Option<string>): Result<bool, Failure>
    requires ValidTime(now)
  {
    if !ValidClock(hh, mm) then Err(InvalidEntryTime)
    else
      var target := Target(now, hh, mm);
      if robust then
        if !NotBefore(now, target) then Ok(false)
        else match MinuteBefore(target)
          case None => Err(DateOverflow)
          case Some(floor) => Ok(MinuteKey(now) != MinuteKey(floor))
      else if now.hour == hh && now.minute == mm then Ok(Some(MinuteKey(now)) != lastMinuteKey)
      else Ok(false)
  }

  /** Once the target minute is reached on the current date, the minute key of now never
      equals that of the minute before the target: the second clause of the robust test
      adds nothing to the first. */
  lemma RobustKeyClauseRedundant(now: LocalTime, hh: nat, mm: nat)
    requires ValidTime(now) && ValidClock(hh, mm)
    requires NotBefore(now, Target(now, hh, mm))
    requires MinuteBefore(Target(now, hh, mm)).Some?
    ensures MinuteKey(now) != MinuteKey(MinuteBefore(Target(now, hh, mm)).value)
  {
    var floor := MinuteBefore(Target(now, hh, mm)).value;
    MinuteKeyInjective(now, floor);
  }

  /** Robust mode fires exactly from the target minute on, whatever the dedup mark; the
      only exception is a 00:00 target on 0001-01-01, where forming the minute before
      overflows. */
  /** On the current date, `now >= target` compares the hour and minute only: the target
      has second 0, so every second of the target minute is at or past it. */
  lemma NotBeforeTarget(now: LocalTime, hh: nat, mm: nat)
    ensures NotBefore(now, Target(now, hh, mm)) <==> ReachedMinute(now, hh, mm)
  {
  }

  lemma RobustFiresIff(now: LocalTime, hh: int, mm: int, lastMinuteKey: Option<string>)
    requires ValidTime(now) && ValidClock(hh, mm)
    ensures ShouldEnterNow(now, true, hh, mm, lastMinuteKey) ==
      if !ReachedMinute(now, hh, mm) then Ok(false)
      else if IsFirstMinute(Target(now, hh, mm)) then Err(DateOverflow)
      else Ok(true)
  {
    var target := Target(now, hh, mm);
    NotBeforeTarget(now, hh, mm);
    if ReachedMinute(now, hh, mm) && !IsFirstMinute(target) {
      RobustKeyClauseRedundant(now, hh, mm);
    }
  }

  /** Exact mode fires only inside the target minute itself, and only when that minute's
      key is not the dedup mark; any other minute gives false. */
  lemma ExactFiresIff(now: LocalTime, hh: int, mm: int, lastMinuteKey: Option<string>)
    requires ValidTime(now) && ValidClock(hh, mm)
    ensures ShouldEnterNow(now, false, hh, mm, lastMinuteKey) == Ok(true) <==>
      (now.hour == hh && now.minute == mm && lastMinuteKey != Some(MinuteKey(now)))
    ensures ShouldEnterNow(now, false, hh, mm, lastMinuteKey).Ok?
  {
  }

  /** An entry hour or minute out of range raises in both modes, every tick. */
  lemma OutOfRangeEntryTimeRaises(now: LocalTime, robust: bool, hh: int, mm: int,
                                  lastMinuteKey: Option<string>)
    requires ValidTime(now) && !ValidClock(hh, mm)
    ensures ShouldEnterNow(now, robust, hh, mm, lastMinuteKey) == Err(InvalidEntryTime)
  {
  }
}
