/**
 The bot's configuration values. They are read from the environment at
 start-up; here they are plain parameters of the model.
 */
module Settings {
  import opened Clock

  datatype Config = Config(
    symbol: string,       // instrument traded and flattened, SYMBOL
    positionSize: int,    // unit count of one entry, POSITION_SIZE
    buffer: real,         // stop/target offset in price units, FVG_BUFFER
    entryStart: string,   // first "HH:MM" of the entry window, ENTRY_START
    entryEnd: string,     // last "HH:MM" of the entry window, ENTRY_END
    exitTime: string      // "HH:MM" at which positions are flattened, EXIT_TIME
  )

  /** The values used when the environment sets none of them. */
  const Default: Config :=
    Config("NAS100_USD", 1000, 0.5, "14:30", "15:00", "15:10")

  /** A configuration whose three times are zero-padded renderings of actual
      readings, as the defaults are; the environment may supply anything else. */
  predicate WellFormedTimes(cfg: Config, start: WallTime, end: WallTime, exit: WallTime)
  {
    cfg.entryStart == Format(start) && cfg.entryEnd == Format(end) && cfg.exitTime == Format(exit)
  }
}
