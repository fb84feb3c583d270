/** The devices of the test bench: two settable instruments and the measurement devices that
    observe them. */
module Devices {
  import opened Domain

  datatype DeviceCall =
    | FrequencySet(hertz: real)
    | TemperatureSet(kelvin: real)
    | OutputPowerSet(dbm: real)
    | Measured(operation: MeasurementOperation)

  /** What a measurement returns, as an arbitrary function of all the calls made before it. */
  type Response = (MeasurementOperation, seq<DeviceCall>) -> real

  /** Frequency and output power have both been set at some time. */
  predicate Configured(calls: seq<DeviceCall>) {
    && (exists i :: 0 <= i < |calls| && calls[i].FrequencySet?)
    && (exists i :: 0 <= i < |calls| && calls[i].OutputPowerSet?)
  }

  /** What the calls have last set. */
  datatype Settings = Settings(frequency: Option<real>, power: Option<real>, temperature: Option<real>)

  function Apply(s: Settings, call: DeviceCall): Settings {
    match call
    case FrequencySet(hertz) => s.(frequency := Some(hertz))
    case TemperatureSet(kelvin) => s.(temperature := Some(kelvin))
    case OutputPowerSet(dbm) => s.(power := Some(dbm))
    case Measured(_) => s
  }

  function SettingsAfter(calls: seq<DeviceCall>): Settings {
    if |calls| == 0 then Settings(None, None, None)
    else Apply(SettingsAfter(calls[..|calls| - 1]), calls[|calls| - 1])
  }

  lemma SettingsAppend(calls: seq<DeviceCall>, call: DeviceCall)
    ensures SettingsAfter(calls + [call]) == Apply(SettingsAfter(calls), call)
  {
    assert (calls + [call])[..|calls|] == calls;
  }

  /** The guard holds exactly where frequency and output power are set. */
  lemma {:induction false} ConfiguredIsSet(calls: seq<DeviceCall>)
    ensures SettingsAfter(calls).frequency.Some? <==> exists i :: 0 <= i < |calls| && calls[i].FrequencySet?
    ensures SettingsAfter(calls).power.Some? <==> exists i :: 0 <= i < |calls| && calls[i].OutputPowerSet?
  {
    if |calls| > 0 {
      var n := |calls| - 1;
      ConfiguredIsSet(calls[..n]);
      assert calls[n] in calls;
      assert forall i :: 0 <= i < n ==> calls[..n][i] == calls[i];
    }
  }

  /** What further calls set depends on the earlier ones only through their settings. */
  lemma {:induction false} SettingsCarryOver(a: seq<DeviceCall>, b: seq<DeviceCall>, more: seq<DeviceCall>)
    requires SettingsAfter(a) == SettingsAfter(b)
    ensures SettingsAfter(a + more) == SettingsAfter(b + more)
    decreases |more|
  {
    if |more| == 0 {
      assert a + more == a && b + more == b;
    } else {
      var n := |more| - 1;
      SettingsCarryOver(a, b, more[..n]);
      SettingsAppend(a + more[..n], more[n]);
      SettingsAppend(b + more[..n], more[n]);
      assert a + more == a + more[..n] + [more[n]] && b + more == b + more[..n] + [more[n]];
    }
  }

  /** The devices answer as a function of their current settings alone. */
  ghost predicate Steady(response: Response) {
    forall op, a, b :: SettingsAfter(a) == SettingsAfter(b) ==> response(op, a) == response(op, b)
  }

  /** The simulated connection, with the log of the calls it received. */
  class Bench {
    const response: Response
    var frequency: Option<real>
    var requestedPower: Option<real>
    var temperature: Option<real>
    var calls: seq<DeviceCall>

    /** The settings are those the calls last made. */
    ghost predicate Logged()
      reads this
    {
      Settings(frequency, requestedPower, temperature) == SettingsAfter(calls)
    }

    constructor (response: Response)
      ensures this.response == response && calls == [] && Logged()
    {
      this.response := response;
      frequency, requestedPower, temperature, calls := None, None, None, [];
    }

    method SetFrequency(hertz: real)
      requires Logged()
      modifies this
      ensures Logged() && calls == old(calls) + [FrequencySet(hertz)]
    {
      frequency := Some(hertz);
      SettingsAppend(calls, FrequencySet(hertz));
      calls := calls + [FrequencySet(hertz)];
    }

    method SetTemperature(kelvin: real)
      requires Logged()
      modifies this
      ensures Logged() && calls == old(calls) + [TemperatureSet(kelvin)]
    {
      temperature := Some(kelvin);
      SettingsAppend(calls, TemperatureSet(kelvin));
      calls := calls + [TemperatureSet(kelvin)];
    }

    method SetOutputPower(dbm: real)
      requires Logged()
      modifies this
      ensures Logged() && calls == old(calls) + [OutputPowerSet(dbm)]
    {
      requestedPower := Some(dbm);
      SettingsAppend(calls, OutputPowerSet(dbm));
      calls := calls + [OutputPowerSet(dbm)];
    }

    /** None where the guard throws because the tester is not configured. */
    method Measure(operation: MeasurementOperation) returns (reading: Option<real>)
      requires Logged()
      modifies this
      ensures Logged() && calls == old(calls) + [Measured(operation)]
      ensures reading == if Configured(old(calls)) then Some(response(operation, old(calls))) else None
    {
      ConfiguredIsSet(calls);
      SettingsAppend(calls, Measured(operation));
      if frequency.None? || requestedPower.None? {
        reading := None;
      } else {
        reading := Some(response(operation, calls));
      }
      calls := calls + [Measured(operation)];
    }
  }
}
