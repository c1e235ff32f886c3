/**
 * FlowDevice, the base class of the devices (mass flow controllers,
 * pressure controllers, valves) that connect two reactors.  Reactors and
 * the rate function are referred to by handle; what they are is not part of
 * this model.
 */
module FlowDevices {
  import opened ThermoTypes

  const MFC_Type: int := 1
  const PressureController_Type: int := 2
  const Valve_Type: int := 3

  /** The time massFlowRate assumes when none is given: the rate is then not updated. */
  const NoTime: real := -999.0

  /** A reactor or rate function, by handle; a null reference is None. */
  type Handle = nat

  class FlowDevice {
    var mdot: real
    var func: Option<Handle>
    var coeffs: seq<real>
    var deviceType: int
    var nspin: nat
    var nspout: nat
    var inlet: Option<Handle>
    var outlet: Option<Handle>

    /** A new device: no flow, type 0, no rate function and no reactors, hence not ready. */
    constructor()
      ensures mdot == 0.0 && func == None && deviceType == 0
      ensures nspin == 0 && nspout == 0 && coeffs == []
      ensures inlet == None && outlet == None && !Ready()
    {
      mdot, func, deviceType := 0.0, None, 0;
      nspin, nspout := 0, 0;
      inlet, outlet := None, None;
      coeffs := [];
    }

    /** type(): the device type (0 for the base class). */
    function Type(): int
      reads this
    {
      deviceType
    }

    /**
     * massFlowRate(time): for a time other than the default, the rate is
     * first updated; the base class's update does nothing, so the stored
     * rate is returned and the device is unchanged.
     */
    method MassFlowRate(time: real) returns (m: real)
      ensures m == mdot
    {
      if time != NoTime {
        UpdateMassFlowRate(time);
      }
      m := mdot;
    }

    /** updateMassFlowRate: a no-op in the base class. */
    method UpdateMassFlowRate(time: real)
    {
    }

    /** ready(): true iff both the upstream and the downstream reactor are set. */
    function Ready(): (b: bool)
      reads this
      ensures b <==> inlet.Some? && outlet.Some?
    {
      inlet != None && outlet != None
    }

    /** in(): the upstream reactor, which must be set. */
    function In(): Handle
      reads this
      requires inlet.Some?
    {
      inlet.value
    }

    /** out(): the downstream reactor, which must be set. */
    function Out(): Handle
      reads this
      requires outlet.Some?
    {
      outlet.value
    }

    /**
     * setParameters(n, c): the coefficient vector is resized to n and the
     * first n entries of c are copied in.
     */
    method SetParameters(n: nat, c: seq<real>)
      requires n <= |c|
      modifies this`coeffs
      ensures coeffs == c[..n]
    {
      coeffs := Resized(coeffs, n, 0.0);
      for k := 0 to n
        invariant |coeffs| == n
        invariant coeffs[..k] == c[..k]
      {
        coeffs := coeffs[k := c[k]];
      }
    }

    /** setMassFlowRate: the stored rate, which massFlowRate then returns. */
    method SetMassFlowRate(m: real)
      modifies this`mdot
      ensures mdot == m
    {
      mdot := m;
    }
  }
}
