/** Setpoint safety, conversion losses, and the closed loop of controller and emulated room. */
module HvacRuns {
  import opened Hvac

  // ---------- conversions ----------

  /** The exact display value, in tenths of a degree Fahrenheit. */
  lemma DisplayOf(a: nat, r: nat)
    requires r < 5 && (5 * a + r) * 9 < WORD
    ensures 5 * a + r < WORD
    ensures ToDisplay(Fahrenheit, 5 * a + r) == 9 * a + 320 + (if r == 0 then 0 else 2 * r - 1)
  {
    assert (5 * a + r) * 9 == 5 * (9 * a) + 9 * r;
    assert ((5 * a + r) * 9) / 5 == 9 * a + (9 * r) / 5;
  }

  /** The exact Celsius value of a display value that is not below the freezing point. */
  lemma CelsiusOf(b: nat, s: nat)
    requires s < 9 && (9 * b + s) * 5 < WORD
    ensures 9 * b + s + 320 < WORD
    ensures ToCelsius(Fahrenheit, 9 * b + s + 320) == 5 * b + 5 * s / 9
  {
    assert (9 * b + s) * 5 == 9 * (5 * b) + 5 * s;
    assert ((9 * b + s) * 5) / 9 == 5 * b + 5 * s / 9;
  }

  lemma RoundTripAt(a: nat, r: nat)
    requires r < 5 && (5 * a + r) * 9 < WORD
    ensures 5 * a + r < WORD
    ensures ToCelsius(Fahrenheit, ToDisplay(Fahrenheit, 5 * a + r)) == if r == 0 then 5 * a else 5 * a + r - 1
  {
    DisplayOf(a, r);
    CelsiusOf(a, if r == 0 then 0 else 2 * r - 1);
  }

  /** Showing a Celsius value and setting what is shown loses nothing at multiples of 5, else exactly 1. */
  lemma CelsiusRoundTrip(t: u32)
    requires t * 9 < WORD
    ensures ToCelsius(Fahrenheit, ToDisplay(Fahrenheit, t)) == if t % 5 == 0 then t else t - 1
  {
    hide ToCelsius, ToDisplay;
    RoundTripAt(t / 5, t % 5);
  }

  /** Setting a display value from the freezing point up and showing it again loses at most 2. */
  lemma DisplayRoundTrip(d: u32)
    requires 320 <= d && (d - 320) * 5 < WORD
    ensures var back := ToDisplay(Fahrenheit, ToCelsius(Fahrenheit, d));
            back == d - (if (d - 320) % 9 == 0 then 0 else if (d - 320) % 9 in {3, 5, 7} then 2 else 1)
  {
    var b, s := (d - 320) / 9, (d - 320) % 9;
    CelsiusOf(b, s);
    DisplayOf(b, 5 * s / 9);
  }

  /** The conversions by numbers, also where the unsigned subtraction wraps around. */
  lemma Conversions(t: u32)
    ensures ToDisplay(Celsius, t) == t && ToCelsius(Celsius, t) == t
    ensures t * 9 < WORD ==> ToDisplay(Fahrenheit, t) == t * 9 / 5 + 320
    ensures 320 <= t && (t - 320) * 5 < WORD ==> ToCelsius(Fahrenheit, t) == (t - 320) * 5 / 9
    ensures t < 320 ==> ToCelsius(Fahrenheit, t) == (WORD - 5 * (320 - t)) / 9
  {
    if t < 320 {
      var wrapped := WORD - (320 - t);
      assert wrapped * 5 == 4 * WORD + (WORD - 5 * (320 - t));
    }
  }

  /** Getting and setting the displayed setpoint n times. */
  function Resets(t: u32, n: nat): u32 {
    if n == 0 then t
    else var p := Params(Auto, FanAutomatic, Fahrenheit, Resets(t, n - 1)); p.SetDesired(p.Desired()).desired
  }

  lemma {:induction false} ResetsFrom(a: nat, r: nat, n: nat)
    requires r < 5 && (5 * a + r) * 9 < WORD
    ensures Resets(5 * a + r, n) == if n < r then 5 * a + (r - n) else 5 * a
  {
    hide ToDisplay, ToCelsius;
    if n > 0 {
      ResetsFrom(a, r, n - 1);
      RoundTripAt(a, if n - 1 < r then r - (n - 1) else 0);
    }
  }

  /** In Fahrenheit each get-then-set drops a tenth of a degree until a multiple of 5 is reached. */
  lemma ResetsDecay(t: u32, n: nat)
    requires t * 9 < WORD
    ensures Resets(t, n) == if t - n > 5 * (t / 5) then t - n else 5 * (t / 5)
  {
    hide Resets;
    ResetsFrom(t / 5, t % 5, n);
  }

  // ---------- setpoint safety ----------

  ghost predicate SafeSetpoint(p: Params) {
    TEMP_MINIMUM <= p.desired <= TEMP_MAXIMUM
  }

  /** The display value that Fahrenheit shows for a setpoint in range. */
  lemma ShownInRange(t: u32)
    requires t <= TEMP_MAXIMUM
    ensures ToDisplay(Fahrenheit, t) == 320 + 9 * (t / 5) + (if t % 5 == 0 then 0 else 2 * (t % 5) - 1)
  {
    DisplayOf(t / 5, t % 5);
  }

  /** An accepted up press adds exactly 5 in Celsius and exactly 2 in Fahrenheit. */
  lemma UpPress(p: Params)
    requires SafeSetpoint(p)
    ensures p.Desired() < ToDisplay(p.scale, TEMP_MAXIMUM - SW_DELTA) <==> p.desired < TEMP_MAXIMUM - SW_DELTA
    ensures p.desired < TEMP_MAXIMUM - SW_DELTA ==>
              p.SetDesired(Wrap(p.Desired() + SW_DELTA)).desired == p.desired + if p.scale == Celsius then 5 else 2
  {
    if p.scale == Fahrenheit {
      ShownInRange(p.desired);
      ShownInRange(TEMP_MAXIMUM - SW_DELTA);
      var a, r := p.desired / 5, p.desired % 5;
      var s := (if r == 0 then 0 else 2 * r - 1) + 5;
      if s < 9 {
        CelsiusOf(a, s);
      } else {
        CelsiusOf(a + 1, s - 9);
      }
    }
  }

  /** How far above its multiple of 5 a setpoint is decides what a down press takes away. */
  lemma DownShift(a: nat, r: nat)
    requires r < 5 && 5 * a + r <= TEMP_MAXIMUM && 5 * a + r > 5
    ensures ToCelsius(Fahrenheit, 9 * a + 320 + (if r == 0 then 0 else 2 * r - 1) - 5)
            == 5 * a + r - if r in {0, 3, 4} then 3 else 4
  {
    var s := (if r == 0 then 0 else 2 * r - 1) - 5;
    if s >= 0 {
      CelsiusOf(a, s);
    } else {
      CelsiusOf(a - 1, s + 9);
    }
  }

  /** An accepted down press subtracts 5 in Celsius, and 3 or 4 in Fahrenheit. */
  lemma DownPress(p: Params)
    requires SafeSetpoint(p)
    ensures p.Desired() > ToDisplay(p.scale, TEMP_MINIMUM + SW_DELTA) <==> p.desired > TEMP_MINIMUM + SW_DELTA
    ensures p.desired > TEMP_MINIMUM + SW_DELTA ==>
              p.SetDesired(Wrap(p.Desired() - SW_DELTA)).desired
              == p.desired - if p.scale == Celsius then 5 else if p.desired % 5 in {0, 3, 4} then 3 else 4
  {
    if p.scale == Fahrenheit {
      ShownInRange(p.desired);
      ShownInRange(TEMP_MINIMUM + SW_DELTA);
      hide ToDisplay, ToCelsius;
      var a, r := p.desired / 5, p.desired % 5;
      if p.desired > TEMP_MINIMUM + SW_DELTA {
        DownShift(a, r);
      }
    }
  }

  /** What a press adds or takes away. */
  function RaisedBy(p: Params): nat {
    if p.scale == Celsius then 5 else 2
  }

  function LoweredBy(p: Params): nat {
    if p.scale == Celsius then 5 else if p.desired % 5 in {0, 3, 4} then 3 else 4
  }

  /**
   What a poll does to the parameters, by the readings alone.  The setpoint moves on the edge of
   a button only and by a fixed amount; an up button that is down hides the down button.
   */
  lemma PollEdges(p: Params, last: seq<bool>, now: seq<bool>)
    requires SafeSetpoint(p) && |last| == |now| == INPUTS
    ensures var q := Poll(p, last, now);
            && q.desired == (if now[0] && !last[0] && !now[1] && p.desired < 495 then p.desired + RaisedBy(p)
                             else if !now[0] && now[1] && !last[1] && p.desired > 5 then p.desired - LoweredBy(p)
                             else p.desired)
            && q.fan == (if now[2] && !last[2] then (if p.fan == FanOn then FanAutomatic else FanOn) else p.fan)
            && q.mode == (if now[3] && !last[3] then Heat else if now[4] && !last[4] then Cool
                          else if last[3] || last[4] then Off else p.mode)
            && q.scale == p.scale
  {
    hide ToDisplay, ToCelsius;
    UpPress(p);
    DownPress(p);
  }

  /** The change event is set by exactly those polls that move the setpoint, toggle the fan or set a mode. */
  lemma PollSignalsChanges(p: Params, last: seq<bool>, now: seq<bool>)
    requires SafeSetpoint(p) && |last| == |now| == INPUTS
    ensures PollSignals(p, last, now) <==>
              || Poll(p, last, now).desired != p.desired
              || Poll(p, last, now).fan != p.fan
              || now[3] || now[4] || last[3] || last[4]
    ensures Poll(p, last, now) != p ==> PollSignals(p, last, now)
  {
    hide ToDisplay, ToCelsius;
    UpPress(p);
    DownPress(p);
  }

  /** Buttons that are held move setpoint and fan once, however often they are polled. */
  lemma {:induction false} HeldButtons(p: Params, last: seq<bool>, now: seq<bool>, n: nat)
    requires SafeSetpoint(p) && |last| == |now| == INPUTS
    ensures var run := seq(n + 1, _ => Readings(now)); var (q, seen) := AfterInputs(p, last, run);
            seen == now && q.desired == Poll(p, last, now).desired && q.fan == Poll(p, last, now).fan
  {
    hide Poll;
    var run := seq(n + 1, _ => Readings(now));
    assert run[..n] == seq(n, _ => Readings(now)) && run[n] == Readings(now);
    PollEdges(p, last, now);
    if n == 0 {
      assert AfterInputs(p, last, run[..0]) == (p, last);
    } else {
      HeldButtons(p, last, now, n - 1);
      PollEdges(AfterInputs(p, last, run[..n]).0, now, now);
    }
  }

  /** One poll keeps the setpoint in range, whatever the buttons do and whatever the scale is. */
  lemma PollIsSafe(p: Params, last: seq<bool>, now: seq<bool>)
    requires SafeSetpoint(p) && |last| == |now| == INPUTS
    ensures SafeSetpoint(Poll(p, last, now))
  {
    hide ToDisplay, ToCelsius;
    UpPress(p);
    DownPress(p);
  }

  datatype Input = Readings(levels: seq<bool>) | ChangeScale(scale: Scale)

  /** The parameters and the last readings after a run of polls and scale changes. */
  ghost function AfterInputs(p: Params, last: seq<bool>, run: seq<Input>): (r: (Params, seq<bool>))
    requires SafeSetpoint(p) && |last| == INPUTS
    requires forall i :: 0 <= i < |run| && run[i].Readings? ==> |run[i].levels| == INPUTS
    ensures SafeSetpoint(r.0) && |r.1| == INPUTS
    decreases |run|
  {
    if run == [] then (p, last) else
    var (q, before) := AfterInputs(p, last, run[..|run| - 1]);
    match run[|run| - 1]
    case Readings(levels) => PollIsSafe(q, before, levels); (Poll(q, before, levels), levels)
    case ChangeScale(scale) => (q.(scale := scale), before)
  }

  // ---------- the closed loop ----------

  function Distance(a: u32, s: u32): nat {
    if a < s then s - a else a - s
  }

  function Max(a: int, b: int): int {
    if a < b then b else a
  }

  /** n updates of the room while the outputs stay as they are. */
  function Updates(ambient: u32, heat: bool, cool: bool, n: nat): u32 {
    if n == 0 then ambient else Drift(Updates(ambient, heat, cool, n - 1), heat, cool)
  }

  /** One control cycle: the outputs are set from the temperature, then n updates follow. */
  function Cycle(p: Params, ambient: u32, n: nat): u32 {
    var state := Decide(p, ambient).0;
    Updates(ambient, state == Heat, state == Cool, n)
  }

  lemma {:induction false} UpdatesMove(ambient: u32, heat: bool, cool: bool, n: nat)
    requires heat ==> ambient + n < WORD
    requires !heat && cool ==> n <= ambient
    ensures Updates(ambient, heat, cool, n) == if heat then ambient + n else if cool then ambient - n else ambient
  {
    if n > 0 {
      UpdatesMove(ambient, heat, cool, n - 1);
    }
  }

  /** What a cycle decides: never both heating and cooling, and only as the mode allows. */
  lemma DecideTowards(p: Params, ambient: u32)
    ensures var (state, fanOn) := Decide(p, ambient);
            && (state == Heat <==> (p.mode == Heat || p.mode == Auto) && ambient < p.desired)
            && (state == Cool <==> (p.mode == Cool || p.mode == Auto) && ambient > p.desired)
            && (state == Off <==> state != Heat && state != Cool)
            && (fanOn <==> state == Heat || state == Cool || p.fan == FanOn)
  {
  }

  /** One cycle with at most k updates. */
  lemma CycleApproaches(p: Params, ambient: u32, n: nat, k: nat)
    requires p.mode == Auto && n <= k && k - 1 <= p.desired && p.desired + k < WORD
    ensures var next := Cycle(p, ambient, n);
            && (Distance(ambient, p.desired) >= n ==> Distance(next, p.desired) == Distance(ambient, p.desired) - n)
            && (Distance(ambient, p.desired) == 0 ==> next == ambient)
            && Distance(next, p.desired) <= Max(Distance(ambient, p.desired) - n, k - 1)
            && (k > 0 && Distance(ambient, p.desired) <= k - 1 ==> Distance(next, p.desired) <= k - 1)
  {
    var state := Decide(p, ambient).0;
    DecideTowards(p, ambient);
    UpdatesMove(ambient, state == Heat, state == Cool, n);
  }

  /** The time of the last update after polls at the given times, from a last update at time last. */
  function LastUpdate(last: nat, times: seq<nat>): nat
    decreases |times|
  {
    if times == [] then last else
    var before, now := LastUpdate(last, times[..|times| - 1]), times[|times| - 1];
    if now >= before + UPDATE_RATE then now else before
  }

  /** How many of those polls update the room. */
  function UpdateCount(last: nat, times: seq<nat>): nat
    decreases |times|
  {
    if times == [] then 0 else
    var before, now := times[..|times| - 1], times[|times| - 1];
    UpdateCount(last, before) + if now >= LastUpdate(last, before) + UPDATE_RATE then 1 else 0
  }

  /** The room is updated at most once per second, however often it is polled and whatever the clock shows. */
  lemma {:induction false} OneUpdatePerSecond(last: nat, times: seq<nat>, end: nat)
    requires last <= end && forall i :: 0 <= i < |times| ==> times[i] <= end
    ensures last + UpdateCount(last, times) <= LastUpdate(last, times) <= end
    decreases |times|
  {
    if times != [] {
      OneUpdatePerSecond(last, times[..|times| - 1], end);
    }
  }

  /** The room temperature after a run of cycles, given the number of updates in each. */
  function AfterCycles(p: Params, ambient: u32, updates: seq<nat>): u32
    decreases |updates|
  {
    if updates == [] then ambient
    else Cycle(p, AfterCycles(p, ambient, updates[..|updates| - 1]), updates[|updates| - 1])
  }

  function Sum(s: seq<nat>): nat
    decreases |s|
  {
    if s == [] then 0 else Sum(s[..|s| - 1]) + s[|s| - 1]
  }

  /**
   Over any run with at most k updates per cycle the distance to the setpoint never exceeds
   the larger of the initial distance less the updates made, and k - 1.
   */
  lemma {:induction false} LoopConverges(p: Params, ambient: u32, updates: seq<nat>, k: nat)
    requires p.mode == Auto && 0 < k && k - 1 <= p.desired && p.desired + k < WORD
    requires forall i :: 0 <= i < |updates| ==> updates[i] <= k
    ensures Distance(AfterCycles(p, ambient, updates), p.desired)
            <= Max(Distance(ambient, p.desired) - Sum(updates), k - 1)
    decreases |updates|
  {
    if updates != [] {
      var init, n := updates[..|updates| - 1], updates[|updates| - 1];
      LoopConverges(p, ambient, init, k);
      CycleApproaches(p, AfterCycles(p, ambient, init), n, k);
    }
  }

  /** At the setpoint the room stays there. */
  lemma {:induction false} SetpointIsStable(p: Params, updates: seq<nat>)
    requires p.mode == Auto
    ensures AfterCycles(p, p.desired, updates) == p.desired
    decreases |updates|
  {
    if updates != [] {
      SetpointIsStable(p, updates[..|updates| - 1]);
      DecideTowards(p, p.desired);
      UpdatesMove(p.desired, false, false, updates[|updates| - 1]);
    }
  }
}
