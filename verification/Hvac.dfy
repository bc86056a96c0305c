/**
 The thermostat: setpoint arithmetic in tenths of a degree on 32-bit unsigned numbers, the
 button edges that move the setpoint, and the control cycle with its emulated room.
 */
module Hvac {

  const WORD: nat := 0x1_0000_0000

  type u32 = x: nat | x < WORD

  const TEMP_TOLERANCE: u32 := 0
  const SW_DELTA: u32 := 5
  const TEMP_MINIMUM: u32 := 0
  const TEMP_MAXIMUM: u32 := 500
  const DEFAULT_TEMP: u32 := 200
  const UPDATE_RATE: nat := 1

  datatype Mode = Off | Cool | Heat | Auto
  datatype FanMode = FanAutomatic | FanOn
  datatype Scale = Fahrenheit | Celsius

  function Wrap(x: int): (r: u32)
    ensures 0 <= x < WORD ==> r == x
  {
    x % WORD
  }

  /** HVAC_ConvertCelsiusToDisplayTemp */
  function ToDisplay(scale: Scale, temp: u32): u32 {
    if scale == Celsius then temp else Wrap(Wrap(temp * 9) / 5 + 320)
  }

  /** HVAC_ConvertDisplayTempToCelsius */
  function ToCelsius(scale: Scale, display: u32): u32 {
    if scale == Celsius then display else Wrap(Wrap(display - 320) * 5) / 9
  }

  // ---------- the setpoint ----------

  datatype Params = Params(mode: Mode, fan: FanMode, scale: Scale, desired: u32) {
    /** HVAC_GetDesiredTemperature */
    function Desired(): u32 {
      ToDisplay(scale, desired)
    }

    /** HVAC_SetDesiredTemperature */
    function SetDesired(display: u32): Params {
      this.(desired := ToCelsius(scale, display))
    }
  }

  const INPUTS: nat := 5
  const UP: nat := 0
  const DOWN: nat := 1
  const FAN: nat := 2
  const HEAT_IN: nat := 3
  const AC_IN: nat := 4

  /** An up press is accepted, from the previous and the current readings. */
  predicate RaisesSetpoint(p: Params, last: seq<bool>, now: seq<bool>)
    requires |last| == |now| == INPUTS
  {
    now[UP] && !last[UP] && !now[DOWN] && p.Desired() < ToDisplay(p.scale, TEMP_MAXIMUM - SW_DELTA)
  }

  /** A down press is accepted. */
  predicate LowersSetpoint(p: Params, last: seq<bool>, now: seq<bool>)
    requires |last| == |now| == INPUTS
  {
    !now[UP] && now[DOWN] && !last[DOWN] && p.Desired() > ToDisplay(p.scale, TEMP_MINIMUM + SW_DELTA)
  }

  /** The buttons that move the setpoint. */
  function PollSetpoint(p: Params, last: seq<bool>, now: seq<bool>): Params
    requires |last| == |now| == INPUTS
  {
    if RaisesSetpoint(p, last, now) then p.SetDesired(Wrap(p.Desired() + SW_DELTA))
    else if LowersSetpoint(p, last, now) then p.SetDesired(Wrap(p.Desired() - SW_DELTA))
    else p
  }

  /** The fan button toggles on its edge. */
  function PollFan(p: Params, last: seq<bool>, now: seq<bool>): Params
    requires |last| == |now| == INPUTS
  {
    if now[FAN] && !last[FAN] then p.(fan := if p.fan == FanOn then FanAutomatic else FanOn) else p
  }

  /** A mode input is pressed, or was on at the previous poll. */
  predicate SetsMode(last: seq<bool>, now: seq<bool>)
    requires |last| == |now| == INPUTS
  {
    now[HEAT_IN] || now[AC_IN] || last[HEAT_IN] || last[AC_IN]
  }

  /** The mode inputs. */
  function PollMode(p: Params, last: seq<bool>, now: seq<bool>): Params
    requires |last| == |now| == INPUTS
  {
    if now[HEAT_IN] && !last[HEAT_IN] then p.(mode := Heat)
    else if now[AC_IN] && !last[AC_IN] then p.(mode := Cool)
    else if last[HEAT_IN] || last[AC_IN] then p.(mode := Off)
    else p
  }

  /** What one Switch_Poll does to the parameters. */
  function Poll(p: Params, last: seq<bool>, now: seq<bool>): Params
    requires |last| == |now| == INPUTS
  {
    PollMode(PollFan(PollSetpoint(p, last, now), last, now), last, now)
  }

  /** Whether one Switch_Poll signals changed parameters: every setter does, even to the same value. */
  predicate PollSignals(p: Params, last: seq<bool>, now: seq<bool>)
    requires |last| == |now| == INPUTS
  {
    RaisesSetpoint(p, last, now) || LowersSetpoint(p, last, now) || (now[FAN] && !last[FAN]) || SetsMode(last, now)
  }

  // ---------- the control cycle ----------

  /** What a control cycle decides: HVACState and FanOn. */
  function Decide(p: Params, actual: u32): (Mode, bool) {
    var cooled := (p.mode == Cool || p.mode == Auto) && actual > Wrap(p.desired + TEMP_TOLERANCE);
    var heated := (p.mode == Heat || p.mode == Auto) && actual < Wrap(p.desired - TEMP_TOLERANCE);
    (if heated then Heat else if cooled then Cool else Off, heated || cooled || p.fan == FanOn)
  }

  /** One update of the emulated room temperature. */
  function Drift(ambient: u32, heat: bool, cool: bool): u32 {
    if heat then Wrap(ambient + 1) else if cool then Wrap(ambient - 1) else ambient
  }

  const OUTPUTS: nat := 4
  const FAN_OUT: nat := 0
  const HEAT_OUT: nat := 1
  const COOL_OUT: nat := 2

  class Thermostat {
    // HVAC_Params
    var mode: Mode
    var fan: FanMode
    var scale: Scale
    var desired: u32
    var changed: bool  // the HVAC_PARAMS_CHANGED event bit
    // HVAC_State
    var state: Mode
    var fanOn: bool
    var actual: u32
    // inputs, outputs and the emulated room
    const inputs: array<bool>
    const lastInputs: array<bool>
    const outputs: array<bool>
    var ambient: u32
    var lastUpdate: nat

    ghost predicate Valid() {
      inputs.Length == INPUTS && lastInputs.Length == INPUTS && outputs.Length == OUTPUTS
      && inputs != lastInputs && inputs != outputs && lastInputs != outputs
    }

    ghost function Parameters(): Params
      reads this`mode, this`fan, this`scale, this`desired
    {
      Params(mode, fan, scale, desired)
    }

    /** HVAC_InitializeParameters and the static initial values. */
    constructor ()
      ensures Valid() && fresh(inputs) && fresh(lastInputs) && fresh(outputs)
      ensures Parameters() == Params(Auto, FanAutomatic, Celsius, DEFAULT_TEMP)
      ensures inputs[..] == lastInputs[..] == seq(INPUTS, _ => false)
      ensures outputs[..] == seq(OUTPUTS, _ => false) && ambient == 200
    {
      mode, fan, scale, desired, changed := Auto, FanAutomatic, Celsius, DEFAULT_TEMP, false;
      state, fanOn, actual := Off, false, 0;
      inputs := new bool[INPUTS](_ => false);
      lastInputs := new bool[INPUTS](_ => false);
      outputs := new bool[OUTPUTS](_ => false);
      ambient, lastUpdate := 200, 0;
    }

    /** HVAC_SetDesiredTemperature */
    method SetDesiredTemperature(display: u32)
      modifies `desired, `changed
      ensures changed && Parameters() == old(Parameters()).SetDesired(display)
    {
      desired := ToCelsius(scale, display);
      changed := true;
    }

    /** HVAC_SetTemperatureScale */
    method SetTemperatureScale(scale: Scale)
      modifies `scale, `changed
      ensures changed && Parameters() == old(Parameters()).(scale := scale)
    {
      this.scale := scale;
      changed := true;
    }

    /** Saving the previous readings and taking new ones. */
    method Sample(readings: seq<bool>)
      requires Valid() && |readings| == INPUTS
      modifies inputs, lastInputs
      ensures lastInputs[..] == old(inputs[..]) && inputs[..] == readings
    {
      for i := 0 to INPUTS
        invariant forall k :: 0 <= k < i ==> lastInputs[k] == old(inputs[k]) && inputs[k] == readings[k]
        invariant forall k :: i <= k < INPUTS ==> inputs[k] == old(inputs[k])
      {
        lastInputs[i] := inputs[i];
        inputs[i] := readings[i];
      }
    }

    /** Switch_Poll: readings are the input levels and seconds the time of the poll. */
    method SwitchPoll(readings: seq<bool>, seconds: nat)
      requires Valid() && |readings| == INPUTS
      modifies this`mode, this`fan, this`desired, this`changed, this`ambient, this`lastUpdate, inputs, lastInputs
      ensures Parameters() == Poll(old(Parameters()), old(inputs[..]), readings)
      ensures lastInputs[..] == old(inputs[..]) && inputs[..] == readings
      ensures ambient == if seconds >= old(lastUpdate) + UPDATE_RATE
                         then Drift(old(ambient), outputs[HEAT_OUT], outputs[COOL_OUT]) else old(ambient)
      ensures lastUpdate == if seconds >= old(lastUpdate) + UPDATE_RATE then seconds else old(lastUpdate)
      ensures changed == (old(changed) || PollSignals(old(Parameters()), old(inputs[..]), readings))
    {
      Sample(readings);
      PollTemperatureButtons();
      if inputs[FAN] && !lastInputs[FAN] {
        fan := if fan == FanOn then FanAutomatic else FanOn;
        changed := true;
      }
      PollModeInputs();
      ReadAmbientTemperature(seconds);
    }

    /** The part of Switch_Poll that moves the setpoint. */
    method PollTemperatureButtons()
      requires Valid()
      modifies `desired, `changed
      ensures Parameters() == PollSetpoint(old(Parameters()), lastInputs[..], inputs[..])
      ensures var (p, last, now) := (old(Parameters()), lastInputs[..], inputs[..]);
              changed == (old(changed) || RaisesSetpoint(p, last, now) || LowersSetpoint(p, last, now))
    {
      if inputs[UP] {
        if !lastInputs[UP] && !inputs[DOWN] {
          if ToDisplay(scale, desired) < ToDisplay(scale, TEMP_MAXIMUM - SW_DELTA) {
            SetDesiredTemperature(Wrap(ToDisplay(scale, desired) + SW_DELTA));
          }
        }
      } else if inputs[DOWN] && !lastInputs[DOWN] {
        if ToDisplay(scale, desired) > ToDisplay(scale, TEMP_MINIMUM + SW_DELTA) {
          SetDesiredTemperature(Wrap(ToDisplay(scale, desired) - SW_DELTA));
        }
      }
    }

    /** The part of Switch_Poll that sets the mode. */
    method PollModeInputs()
      requires Valid()
      modifies `mode, `changed
      ensures Parameters() == PollMode(old(Parameters()), lastInputs[..], inputs[..])
      ensures changed == (old(changed) || SetsMode(lastInputs[..], inputs[..]))
    {
      if inputs[HEAT_IN] && !lastInputs[HEAT_IN] {
        mode, changed := Heat, true;
      } else if inputs[AC_IN] && !lastInputs[AC_IN] {
        mode, changed := Cool, true;
      } else if lastInputs[HEAT_IN] || lastInputs[AC_IN] {
        mode, changed := Off, true;
      }
    }

    /** HVAC_ReadAmbientTemperature */
    method ReadAmbientTemperature(seconds: nat)
      requires Valid()
      modifies `ambient, `lastUpdate
      ensures if seconds >= old(lastUpdate) + UPDATE_RATE
              then ambient == Drift(old(ambient), outputs[HEAT_OUT], outputs[COOL_OUT]) && lastUpdate == seconds
              else ambient == old(ambient) && lastUpdate == old(lastUpdate)
    {
      if seconds >= lastUpdate + UPDATE_RATE {
        lastUpdate := seconds;
        if outputs[HEAT_OUT] {
          ambient := Wrap(ambient + 1);
        } else if outputs[COOL_OUT] {
          ambient := Wrap(ambient - 1);
        }
      }
    }

    /** HVAC_SetOutput */
    method SetOutput(signal: nat, on: bool)
      requires Valid() && signal < OUTPUTS
      modifies outputs
      ensures outputs[..] == old(outputs[..])[signal := on]
    {
      if outputs[signal] != on {
        outputs[signal] := on;
      }
    }

    /** The body of the loop of HVAC_Task up to the wait. */
    method ControlCycle()
      requires Valid()
      modifies `state, `fanOn, `actual, outputs
      ensures actual == ambient && (state, fanOn) == Decide(Parameters(), ambient)
      ensures outputs[FAN_OUT] == fanOn && outputs[HEAT_OUT] == (state == Heat) && outputs[COOL_OUT] == (state == Cool)
    {
      actual := ambient;
      state, fanOn := Off, false;
      if mode == Cool || mode == Auto {
        if actual > Wrap(desired + TEMP_TOLERANCE) {
          state, fanOn := Cool, true;
        }
      }
      if mode == Heat || mode == Auto {
        if actual < Wrap(desired - TEMP_TOLERANCE) {
          state, fanOn := Heat, true;
        }
      }
      if fan == FanOn {
        fanOn := true;
      }
      SetOutput(FAN_OUT, fanOn);
      SetOutput(HEAT_OUT, state == Heat);
      SetOutput(COOL_OUT, state == Cool);
    }
  }
}
