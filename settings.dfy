/** The bot's configuration, read once from the environment at start-up and never changed. */
module Settings {

  /** One field per configuration variable of the bot. The time zone is not here: the
      model receives local time already converted. */
  datatype Config = Config(
    instrument: string,     // INSTRUMENT
    units: int,             // UNITS, positive for a long position
    entryHour: int,         // ENTRY_HOUR
    entryMinute: int,       // ENTRY_MINUTE
    robustEntry: bool,      // ROBUST_ENTRY
    tpPips: int,            // TP_PIPS
    slPips: int,            // SL_PIPS, 0 for no stop-loss
    onePerDay: bool,        // ONE_PER_DAY
    onlyWeek: bool,         // ONLY_WEEK
    closeAtHour: int,       // CLOSE_AT_HOUR
    closeAtMinute: int,     // CLOSE_AT_MINUTE
    pipMode: string,        // PIP_MODE, "Auto (FX)" or "Personalizado"
    customPip: real         // CUSTOM_PIP, used when the pip mode is not automatic
  )

  /** The configuration when no variable is set. */
  const DefaultConfig := Config("EUR_USD", 10000, 16, 55, true, 10, 0, true, true, 17, 10,
                                "Auto (FX)", 0.0001)
}
