# Timed OANDA bot — decision logic in Dafny

The bot in `oanda_bot.py` runs a loop that sleeps fifteen seconds after each pass, so
wake-ups are fifteen seconds plus the pass's own time apart. On each wake-up it reads the
local clock, renders it as `"HH:MM"`, and does three things in order:

1. at 00:00 it clears its `already_traded_today` flag and says "New day";
2. if the rendering lies in the inclusive window `ENTRY_START..ENTRY_END` and the flag is
   clear, it opens a long bracketed market order and sets the flag;
3. if the rendering equals `EXIT_TIME`, it submits `-int(net)` units for each reported
   `SYMBOL` position with a non-zero net, where net = long units + short units.

This project models that decision logic with all I/O removed:

- `clock.dfy` (module `Clock`): clock readings and the zero-padded `"%H:%M"` rendering.
  It also models Python's lexicographic `str` ordering. The lemma `FormatOrder` shows that this
  ordering on renderings agrees with minute-of-day order.
- `settings.dfy` (module `Settings`): the configuration values and their defaults. They are
  plain parameters here.
- `orders.dfy` (module `Orders`): the bracket arithmetic of `place_trade` and the netting rule
  of `close_positions`. A close pass returns its orders instead of submitting them.
- `scheduler.dfy` (module `Scheduler`): one loop pass is the pure function `Step`. The endless
  loop is `Run`, a fold of `Step` over a sequence of wake-ups. `DailyStrategy` is the same loop
  written as a method.

The actions a pass reports stand for the source's side effects:
- `Reset` is the flag reset plus its "New day" notification.
- `Enter(Long)` is the entry notification plus `place_trade("long")`.
- `Close` is a call to `close_positions`.

Behaviour the model keeps exactly as the code has it:
- The midnight reset has no once-per-day guard. Every wake-up during 00:00 resets the flag and
  notifies again.
- The exit test is an exact string match. It does not read the flag.
- The close test is `net != 0`, with no noise threshold.
- The close size is `-int(net)`. Python's `int` truncates toward zero, so a fractional net
  below one unit passes the test but yields a zero-unit order (`FractionalNetGivesZeroUnitOrder`).
- The entry direction is always `"long"`.
- The code has no candle-gap detector, no retest tolerance, no noise threshold, and no
  once-per-day guard on the reset.

## Model

| member | source | states |
|---|---|---|
| Clock.Format | oanda_bot.py:107-108 | A rendering is five characters: two digits that spell the hour, a colon, then two digits that spell the minute. |
| Clock.LexLeReflexive | oanda_bot.py:114 | String `<=` is reflexive, so both ends of the window admit their own minute, even when start equals end. |
| Clock.FormatLex | oanda_bot.py:114 | On two `"HH:MM"`-shaped strings, Python's `<=` compares the two hour digits, then the two minute digits, in turn. The colons always tie. |
| Clock.FormatOrder | oanda_bot.py:108-114 | For zero-padded renderings, the string test `a <= b` holds exactly when `a`'s minute of the day is at most `b`'s. |
| Clock.FormatInjective | oanda_bot.py:120 | Two readings render to the same `"HH:MM"` string exactly when they are the same reading. So the exit match is an exact time match. |
| Clock.LexLeTransitive | oanda_bot.py:114 | Python's string `<=` is transitive, so the two-sided window test describes an interval of strings. |
| Orders.PlaceTrade | oanda_bot.py:68-72 | For `"long"`: stop = entry − buffer, target = entry + 2·buffer, units = +size. Every other direction string gets the mirror image. The target is always twice as far from the entry as the stop, on the other side. |
| Orders.BracketMirror | oanda_bot.py:70-72 | The short bracket reflects the long bracket about the entry price, and the units change sign. |
| Orders.Trunc | oanda_bot.py:97 | `int()` truncates toward zero: the result is within one unit of its input, on the zero side. It is exact on whole numbers. |
| Orders.ClosePositions | oanda_bot.py:89-100 | A response with a missing `account` or `positions` level yields no order. Otherwise the orders are exactly those of the reported position list, all on SYMBOL. |
| Orders.CloseOrderFor | oanda_bot.py:92-97 | A position gets an order exactly when its instrument is SYMBOL and long + short ≠ 0. The order leaves less than one unit open and never overshoots. It flattens a whole-unit net exactly. |
| Orders.CloseOrders | oanda_bot.py:91-100 | Every order in a close pass is on SYMBOL and comes from a position that needs closing. Every position that needs closing gets its order. |
| Orders.CloseOrdersAppend | oanda_bot.py:91-100 | Position lists are handled entry by entry, so closing a concatenation is concatenating the closes. |
| Orders.QuietPositionsIgnored | oanda_bot.py:92-96 | Positions on other instruments, or positions already at net zero, add no order wherever they appear in the list. |
| Orders.SecondCloseIsQuiet | oanda_bot.py:95-97 | After the orders of a close pass have filled on whole-unit positions, a second close pass submits nothing. |
| Orders.FractionalNetGivesZeroUnitOrder | oanda_bot.py:96-97 | A net of 0.5 units passes `net != 0`, and it yields an order of 0 units. |
| Scheduler.Step | oanda_bot.py:107-121 | Reset iff 00:00. Enter iff the rendering is in the inclusive window and the flag, after any reset, is clear. Close iff the rendering equals EXIT_TIME. The flag ends set iff it survived the reset or an entry was made. A pass holds at most one of each action, in the order Reset, Enter, Close. |
| Scheduler.Run | oanda_bot.py:104-123 | Over any sequence of wake-ups, the number of resets equals the number of wake-ups at 00:00. |
| Scheduler.RunAppend | oanda_bot.py:106-123 | Running over two stretches of wake-ups one after the other is the same as running over their concatenation. |
| Scheduler.EntriesBoundedByResets | oanda_bot.py:110-118 | Entries, plus one if the flag ends clear, never exceed resets plus one if the flag started clear. |
| Scheduler.AtMostOneEntry | oanda_bot.py:110-118 | Over wake-ups with none at 00:00 there is at most one entry, and none if the flag was already set. |
| Scheduler.FlagStaysSet | oanda_bot.py:114-118 | Without a wake-up at 00:00, a set flag stays set. |
| Scheduler.FlagMonotone | oanda_bot.py:110-118 | Along a run with no wake-up at 00:00, if the flag is set after the first i wake-ups, it is set after every later prefix. |
| Scheduler.MidnightIgnoresFlag | oanda_bot.py:110-112 | A pass at 00:00 gives the same result whatever flag it finds. Repeating it is idempotent on the flag, and each repetition resets again. |
| Scheduler.RepeatedMidnightResets | oanda_bot.py:110-112 | k wake-ups within 00:00 send k reset notifications. |
| Scheduler.EntryAndExitIndependent | oanda_bot.py:114-121 | The close decision does not depend on the flag. The entry decision and the resulting flag do not depend on EXIT_TIME. |
| Scheduler.StepByMinuteOfDay | oanda_bot.py:108-121 | When the configured times are zero-padded renderings, entry is the inclusive minute interval test (with the flag clear or at 00:00), and the exit fires at exactly the exit reading. |
| Scheduler.DefaultWindowInclusive | oanda_bot.py:39-41 | With the defaults, 14:30 and 15:00 both enter while 14:29 and 15:01 do not. 15:10 closes and 15:11 does not. |
| Scheduler.DefaultDayScenario | oanda_bot.py:104-118 | With the defaults, a wake-up at 14:45 enters and sets the flag. A second wake-up at 14:50 does nothing more. |
| Scheduler.DailyStrategy | oanda_bot.py:104-123 | The loop starts with the flag clear and computes exactly `Run`. It resets once per wake-up at 00:00 and enters at most once more than it resets (at most once when there is no wake-up at 00:00). |

## Left out

- Notifications (`send_telegram`, oanda_bot.py:48-58) are not sent. They appear only as the `Reset` and `Enter` action tags. The per-order "Position closed" message matches one-to-one with the orders of a close pass.
- `get_price` (oanda_bot.py:61-65) calls the broker and parses the response ad hoc. The entry price is a parameter of `PlaceTrade`.
- Order submission and account queries through the OANDA client (oanda_bot.py:34, 83-84, 89-90, 99-100) are foreign calls. Orders are returned as values, and the account response is a parameter. The `"FOK"` time-in-force and the conversion of units and prices to strings are not modelled.
- Orders.PlaceTrade: stop and target are stated before `round(..., 1)`. Floating-point rounding is not modelled, and prices are reals.
- Orders.CloseOrders: unit counts are reals as already parsed by `float()`. String parsing of the broker's unit fields is not modelled.
- Orders.Filled / SecondCloseIsQuiet assume that each close order fills completely and nets against the position. That is broker behaviour, not code of the bot.
- Exceptions escaping `place_trade` or `close_positions` end the loop thread. The model assumes both return normally. In the code the flag is set only after `place_trade` returns (oanda_bot.py:117-118), so the flag would stay clear if `place_trade` raised.
- Configuration loading and the start-up `RuntimeError` (oanda_bot.py:24-41) are out of scope. The configuration values are parameters, with the defaults in `Settings.Default`.
- `time.sleep(15)`, the daemon thread and the Flask app (oanda_bot.py:123, 126-135) are about timing, concurrency and web serving. A run is any finite sequence of (hour, minute) readings, with no constraint on spacing or order.
- save.py (JSON/pickle file helpers) and main.py (server entry point) contain no decision logic.
