/**
 The once-a-day entry/exit logic of `daily_strategy`. One wake-up of the
 loop is the pure function `Step`; the endless loop is `Run`, a fold of `Step`
 over the sequence of clock readings it wakes up to. Broker calls and
 notifications are not performed: each pass reports what it would do as a
 sequence of actions.
 */
module Scheduler {
  import opened Clock
  import opened Settings
  import opened Orders

  /** What one pass does besides updating the flag:
      Reset  - clears the flag and sends the "new day" notification;
      Enter  - sends the entry notification and calls `place_trade(direction)`;
      Close  - calls `close_positions`. */
  datatype Action = Reset | Enter(direction: Direction) | Close

  /** The flag `already_traded_today` after a pass, and what the pass did. */
  datatype Outcome = Outcome(traded: bool, actions: seq<Action>)

  predicate IsMidnight(t: WallTime) {
    t.hour == 0 && t.minute == 0
  }

  /** The window test, in the loop's own terms: ENTRY_START <= time_str <= ENTRY_END. */
  predicate InWindow(cfg: Config, timeStr: string) {
    LexLe(cfg.entryStart, timeStr) && LexLe(timeStr, cfg.entryEnd)
  }

  function Entries(acts: seq<Action>): (n: nat)
    ensures n <= |acts|
  {
    if |acts| == 0 then 0 else (if acts[0].Enter? then 1 else 0) + Entries(acts[1..])
  }

  function Resets(acts: seq<Action>): (n: nat)
    ensures n <= |acts|
  {
    if |acts| == 0 then 0 else (if acts[0] == Reset then 1 else 0) + Resets(acts[1..])
  }

  lemma {:induction false} CountsAppend(a: seq<Action>, b: seq<Action>)
    ensures Entries(a + b) == Entries(a) + Entries(b)
    ensures Resets(a + b) == Resets(a) + Resets(b)
  {
    if |a| > 0 {
      assert (a + b)[0] == a[0];
      assert (a + b)[1..] == a[1..] + b;
      CountsAppend(a[1..], b);
    } else {
      assert a + b == b;
    }
  }

  /** One wake-up of the loop, given the flag it finds and the clock reading. */
  function Step(traded: bool, t: WallTime, cfg: Config): (r: Outcome)
    // the reset fires on every wake-up in the minute 00:00, whatever the flag
    ensures Reset in r.actions <==> IsMidnight(t)
    // entry: inside the inclusive window, with the flag clear after any reset
    ensures Enter(Long) in r.actions <==> InWindow(cfg, Format(t)) && (!traded || IsMidnight(t))
    ensures forall a :: a in r.actions && a.Enter? ==> a.direction == Long
    // exit: an exact match of the rendered time, not gated by the flag
    ensures Close in r.actions <==> Format(t) == cfg.exitTime
    // the flag ends set exactly when it survived the reset or an entry was made
    ensures r.traded <==> (traded && !IsMidnight(t)) || Enter(Long) in r.actions
    // the reset comes first and the close comes last within the pass
    ensures Reset in r.actions ==> r.actions[0] == Reset
    ensures Close in r.actions ==> r.actions[|r.actions| - 1] == Close
    // and nothing else happens: at most one of each, so the entry precedes the close
    ensures |r.actions| == (if IsMidnight(t) then 1 else 0) + (if Enter(Long) in r.actions then 1 else 0)
                           + (if Close in r.actions then 1 else 0)
    ensures Entries(r.actions) <= 1 && Resets(r.actions) <= 1
  {
    var timeStr := Format(t);
    var reset := IsMidnight(t);
    var flag := if reset then false else traded;
    var enter := InWindow(cfg, timeStr) && !flag;
    var close := timeStr == cfg.exitTime;
    var resetActs := if reset then [Reset] else [];
    var enterActs := if enter then [Enter(Long)] else [];
    var closeActs := if close then [Close] else [];
    CountsAppend(resetActs, enterActs);
    CountsAppend(resetActs + enterActs, closeActs);
    Outcome(flag || enter, resetActs + enterActs + closeActs)
  }

  /** The loop over a sequence of wake-ups, starting from the flag `traded`. */
  function Run(traded: bool, wakes: seq<WallTime>, cfg: Config): (r: Outcome)
    ensures Resets(r.actions) == MidnightWakes(wakes)
    decreases |wakes|
  {
    if |wakes| == 0 then Outcome(traded, [])
    else
      var before := Run(traded, wakes[..|wakes| - 1], cfg);
      var last := Step(before.traded, wakes[|wakes| - 1], cfg);
      CountsAppend(before.actions, last.actions);
      Outcome(last.traded, before.actions + last.actions)
  }

  /** How many of the wake-ups fall in the minute 00:00. */
  function MidnightWakes(wakes: seq<WallTime>): (n: nat)
    ensures n <= |wakes|
    decreases |wakes|
  {
    if |wakes| == 0 then 0
    else MidnightWakes(wakes[..|wakes| - 1]) + (if IsMidnight(wakes[|wakes| - 1]) then 1 else 0)
  }

  predicate NoMidnight(wakes: seq<WallTime>) {
    forall i :: 0 <= i < |wakes| ==> !IsMidnight(wakes[i])
  }

  lemma {:induction false} NoMidnightCount(wakes: seq<WallTime>)
    requires NoMidnight(wakes)
    ensures MidnightWakes(wakes) == 0
  {
    if |wakes| > 0 {
      NoMidnightCount(wakes[..|wakes| - 1]);
    }
  }

  /** One more wake-up extends the run by one pass. */
  lemma RunSnoc(traded: bool, wakes: seq<WallTime>, w: WallTime, cfg: Config)
    ensures var before := Run(traded, wakes, cfg); var last := Step(before.traded, w, cfg);
      Run(traded, wakes + [w], cfg) == Outcome(last.traded, before.actions + last.actions)
  {
    assert (wakes + [w])[..|wakes|] == wakes;
  }

  /** Running over `a` and then over `b` is running over `a + b`. */
  lemma {:induction false} RunAppend(traded: bool, a: seq<WallTime>, b: seq<WallTime>, cfg: Config)
    ensures Run(traded, a + b, cfg).traded == Run(Run(traded, a, cfg).traded, b, cfg).traded
    ensures Run(traded, a + b, cfg).actions == Run(traded, a, cfg).actions + Run(Run(traded, a, cfg).traded, b, cfg).actions
    decreases |b|
  {
    if |b| == 0 {
      assert a + b == a;
    } else {
      var b', w := b[..|b| - 1], b[|b| - 1];
      assert b == b' + [w];
      assert a + b == (a + b') + [w];
      RunAppend(traded, a, b', cfg);
      var ra := Run(traded, a, cfg);
      var rab' := Run(traded, a + b', cfg);
      var rb' := Run(ra.traded, b', cfg);
      assert rab'.traded == rb'.traded;
      var last := Step(rb'.traded, w, cfg);
      RunSnoc(traded, a + b', w, cfg);
      RunSnoc(ra.traded, b', w, cfg);
      assert Run(traded, a + b, cfg).actions == rab'.actions + last.actions;
      assert Run(ra.traded, b, cfg).actions == rb'.actions + last.actions;
      ConcatAssociative(ra.actions, rb'.actions, last.actions);
    }
  }

  lemma ConcatAssociative<T>(x: seq<T>, y: seq<T>, z: seq<T>)
    ensures (x + y) + z == x + (y + z)
  {
  }

  /** Every entry is paid for by a reset or by the flag starting clear: the
      number of entries plus one if the flag ends clear never exceeds the number
      of resets plus one if the flag started clear. */
  lemma {:induction false} EntriesBoundedByResets(traded: bool, wakes: seq<WallTime>, cfg: Config)
    ensures var r := Run(traded, wakes, cfg);
      Entries(r.actions) + (if r.traded then 0 else 1) <= Resets(r.actions) + (if traded then 0 else 1)
    decreases |wakes|
  {
    if |wakes| > 0 {
      var before := Run(traded, wakes[..|wakes| - 1], cfg);
      var last := Step(before.traded, wakes[|wakes| - 1], cfg);
      EntriesBoundedByResets(traded, wakes[..|wakes| - 1], cfg);
      CountsAppend(before.actions, last.actions);
    }
  }

  /** Between two resets the bot enters at most once, and not at all once it
      has traded. */
  lemma AtMostOneEntry(traded: bool, wakes: seq<WallTime>, cfg: Config)
    requires NoMidnight(wakes)
    ensures Entries(Run(traded, wakes, cfg).actions) <= 1
    ensures traded ==> Entries(Run(traded, wakes, cfg).actions) == 0
  {
    EntriesBoundedByResets(traded, wakes, cfg);
    NoMidnightCount(wakes);
  }

  /** Without a midnight wake-up the flag, once set, stays set. */
  lemma {:induction false} FlagStaysSet(wakes: seq<WallTime>, cfg: Config)
    requires NoMidnight(wakes)
    ensures Run(true, wakes, cfg).traded
    decreases |wakes|
  {
    if |wakes| > 0 {
      FlagStaysSet(wakes[..|wakes| - 1], cfg);
    }
  }

  /** Along any run without a midnight wake-up the flag is monotone: set after
      the first i wake-ups implies set after the first j >= i of them. */
  lemma FlagMonotone(traded: bool, wakes: seq<WallTime>, cfg: Config, i: nat, j: nat)
    requires NoMidnight(wakes)
    requires i <= j <= |wakes|
    requires Run(traded, wakes[..i], cfg).traded
    ensures Run(traded, wakes[..j], cfg).traded
  {
    var before, later := wakes[..i], wakes[i..j];
    NoMidnightSlice(wakes, i, j);
    FlagStaysSet(later, cfg);
    PrefixSplit(wakes, i, j);
    RunAppend(traded, before, later, cfg);
  }

  lemma PrefixSplit<T>(s: seq<T>, i: nat, j: nat)
    requires i <= j <= |s|
    ensures s[..j] == s[..i] + s[i..j]
  {
  }

  lemma NoMidnightSlice(wakes: seq<WallTime>, i: nat, j: nat)
    requires NoMidnight(wakes)
    requires i <= j <= |wakes|
    ensures NoMidnight(wakes[i..j])
  {
    forall k | 0 <= k < j - i
      ensures !IsMidnight(wakes[i..j][k])
    {
      assert wakes[i..j][k] == wakes[i + k];
    }
  }

  /** A midnight pass does not look at the flag it finds, so repeating it
      (several wake-ups within 00:00) leaves the flag as one pass does, and
      each repetition sends its own reset notification. */
  lemma MidnightIgnoresFlag(traded: bool, t: WallTime, cfg: Config)
    requires IsMidnight(t)
    ensures Step(traded, t, cfg) == Step(false, t, cfg)
    ensures Step(Step(traded, t, cfg).traded, t, cfg) == Step(traded, t, cfg)
  {
  }

  /** k wake-ups in the minute 00:00 send k reset notifications. */
  lemma RepeatedMidnightResets(traded: bool, wakes: seq<WallTime>, cfg: Config)
    requires forall i :: 0 <= i < |wakes| ==> IsMidnight(wakes[i])
    ensures Resets(Run(traded, wakes, cfg).actions) == |wakes|
  {
    AllMidnightCount(wakes);
  }

  lemma {:induction false} AllMidnightCount(wakes: seq<WallTime>)
    requires forall i :: 0 <= i < |wakes| ==> IsMidnight(wakes[i])
    ensures MidnightWakes(wakes) == |wakes|
  {
    if |wakes| > 0 {
      AllMidnightCount(wakes[..|wakes| - 1]);
    }
  }

  /** The exit check neither reads nor writes the flag, and the entry check
      does not read the exit time: the two halves of a pass are independent. */
  lemma EntryAndExitIndependent(traded: bool, t: WallTime, cfg: Config, exitTime: string)
    ensures (Close in Step(traded, t, cfg).actions) <==> (Close in Step(!traded, t, cfg).actions)
    ensures Step(traded, t, cfg).traded == Step(traded, t, cfg.(exitTime := exitTime)).traded
    ensures (Enter(Long) in Step(traded, t, cfg).actions)
        <==> (Enter(Long) in Step(traded, t, cfg.(exitTime := exitTime)).actions)
  {
  }

  /** With zero-padded configured times the string tests of a pass are
      ordinary clock tests: the window is the inclusive interval of minutes
      [start, end], and the exit fires at exactly the exit reading. */
  lemma StepByMinuteOfDay(traded: bool, t: WallTime, cfg: Config, start: WallTime, end: WallTime, exit: WallTime)
    requires WellFormedTimes(cfg, start, end, exit)
    ensures Enter(Long) in Step(traded, t, cfg).actions <==>
      MinuteOfDay(start) <= MinuteOfDay(t) <= MinuteOfDay(end) && (!traded || IsMidnight(t))
    ensures Close in Step(traded, t, cfg).actions <==> t == exit
  {
    FormatOrder(start, t);
    FormatOrder(t, end);
    FormatInjective(t, exit);
  }

  /** The default window 14:30-15:00 includes both of its ends and nothing
      beyond them; the default exit is 15:10. */
  lemma DefaultWindowInclusive()
    ensures Enter(Long) in Step(false, WallTime(14, 30), Default).actions
    ensures Enter(Long) in Step(false, WallTime(15, 0), Default).actions
    ensures Enter(Long) !in Step(false, WallTime(14, 29), Default).actions
    ensures Enter(Long) !in Step(false, WallTime(15, 1), Default).actions
    ensures Close in Step(true, WallTime(15, 10), Default).actions
    ensures Close !in Step(true, WallTime(15, 11), Default).actions
  {
    var start, end, exit := WallTime(14, 30), WallTime(15, 0), WallTime(15, 10);
    assert WellFormedTimes(Default, start, end, exit);
    StepByMinuteOfDay(false, WallTime(14, 30), Default, start, end, exit);
    StepByMinuteOfDay(false, WallTime(15, 0), Default, start, end, exit);
    StepByMinuteOfDay(false, WallTime(14, 29), Default, start, end, exit);
    StepByMinuteOfDay(false, WallTime(15, 1), Default, start, end, exit);
    StepByMinuteOfDay(true, WallTime(15, 10), Default, start, end, exit);
    StepByMinuteOfDay(true, WallTime(15, 11), Default, start, end, exit);
  }

  /** With the default configuration a wake-up at 14:45 enters and a second
      one at 14:50 the same day does nothing more. */
  lemma DefaultDayScenario()
    ensures var r := Run(false, [WallTime(14, 45), WallTime(14, 50)], Default);
      r.traded && r.actions == [Enter(Long)]
  {
    var start, end, exit := WallTime(14, 30), WallTime(15, 0), WallTime(15, 10);
    var t1, t2 := WallTime(14, 45), WallTime(14, 50);
    assert WellFormedTimes(Default, start, end, exit);
    var first := Step(false, t1, Default);
    assert first == Outcome(true, [Enter(Long)]) by {
      StepByMinuteOfDay(false, t1, Default, start, end, exit);
    }
    var second := Step(true, t2, Default);
    assert second == Outcome(true, []) by {
      StepByMinuteOfDay(true, t2, Default, start, end, exit);
    }
    RunSnoc(false, [], t1, Default);
    RunSnoc(false, [t1], t2, Default);
    assert [t1] + [t2] == [t1, t2];
    assert [] + [t1] == [t1];
  }

  /** The endless loop of `daily_strategy`, over a finite prefix of its
      wake-ups, starting from the process-start flag `false`. */
  method DailyStrategy(wakes: seq<WallTime>, cfg: Config) returns (traded: bool, actions: seq<Action>)
    ensures Outcome(traded, actions) == Run(false, wakes, cfg)
    ensures Resets(actions) == MidnightWakes(wakes)
    ensures NoMidnight(wakes) ==> Entries(actions) <= 1
    ensures Entries(actions) <= MidnightWakes(wakes) + 1
  {
    traded := false;
    actions := [];
    var i := 0;
    while i < |wakes|
      invariant 0 <= i <= |wakes|
      invariant Outcome(traded, actions) == Run(false, wakes[..i], cfg)
    {
      assert wakes[..i + 1][..i] == wakes[..i];
      var pass := Step(traded, wakes[i], cfg);
      traded := pass.traded;
      actions := actions + pass.actions;
      i := i + 1;
    }
    assert wakes[..i] == wakes;
    EntriesBoundedByResets(false, wakes, cfg);
    if NoMidnight(wakes) {
      AtMostOneEntry(false, wakes, cfg);
    }
  }
}
