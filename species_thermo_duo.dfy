/**
 * SpeciesThermoDuo: a species reference-state manager that holds two
 * sub-managers by value, each of one parameterization family, and routes
 * every installed species to the one whose flag matches, remembering the
 * choice per species.
 *
 * The sub-managers are template parameters; a SubThermo records what the
 * duo can observe of one: its flag, the parameters installed for each
 * species, its running temperature limits, its own reference pressure, and
 * whether its install throws on a reference-pressure mismatch (as the
 * NasaThermo of NasaThermoJacobians does) or only stores the newest one.
 */
module SpeciesThermoMgr {
  import opened ThermoTypes

  /** One sub-manager (T1 or T2), as seen through its install/report/limits interface. */
  datatype SubThermo = SubThermo(id: int, installed: map<nat, Params>, tlowMax: real, thighMin: real,
                                 p0: real, strictP0: bool)

  /** What one sub-manager's update leaves in the output slot of species k at temperature t. */
  datatype Evaluation = Evaluation(manager: int, species: nat, t: real)

  /** The error a pressure-checking sub-manager throws when a species' reference pressure differs. */
  const PressureMismatch := CanteraError("install()", "species have different reference pressures")

  /**
   * Installing into a sub-manager: record the parameters and narrow the
   * common range, then check the reference pressure.  The first pressure is
   * always stored; a later one more than 0.1 Pa away makes a checking
   * sub-manager throw, keeping its old pressure and, as nothing is rolled
   * back, the species just stored.
   */
  function SubInstall(m: SubThermo, sp: nat, c: seq<real>, minTemp: real, maxTemp: real, refPressure: real)
    : (r: (SubThermo, Result<()>))
    ensures r.0.id == m.id && r.0.strictP0 == m.strictP0
    ensures sp in r.0.installed && r.0.installed[sp] == Params(m.id, c, minTemp, maxTemp, refPressure)
    ensures forall j :: j != sp ==> (j in r.0.installed <==> j in m.installed)
    ensures forall j :: j != sp && j in m.installed ==> r.0.installed[j] == m.installed[j]
    ensures r.0.tlowMax >= m.tlowMax && r.0.tlowMax >= minTemp && r.0.thighMin <= m.thighMin && r.0.thighMin <= maxTemp
    ensures r.1.Err? <==> m.strictP0 && m.p0 >= 0.0 && Abs(m.p0 - refPressure) > 0.1
    ensures r.1.Ok? ==> r.0.p0 == refPressure
    ensures r.1.Err? ==> r.0.p0 == m.p0 && r.1.error == PressureMismatch
  {
    var stored := m.(installed := m.installed[sp := Params(m.id, c, minTemp, maxTemp, refPressure)],
                     tlowMax := Max(m.tlowMax, minTemp), thighMin := Min(m.thighMin, maxTemp));
    if m.strictP0 && m.p0 >= 0.0 && Abs(m.p0 - refPressure) > 0.1 then (stored, Err(PressureMismatch))
    else (stored.(p0 := refPressure), Ok(()))
  }

  /** A sub-manager's reportParams; a species it never received has nothing to report. */
  function SubReport(m: SubThermo, k: nat): Result<Params> {
    if k in m.installed then Ok(m.installed[k]) else Err(OutOfRange("species not installed in this sub-manager"))
  }

  /** A sub-manager's update: it writes the slot of every species it holds, and no other. */
  function SubUpdate(m: SubThermo, t: real, out: seq<Option<Evaluation>>): (r: seq<Option<Evaluation>>)
    ensures |r| == |out|
    ensures forall i :: 0 <= i < |out| ==> r[i] == (if i in m.installed then Some(Evaluation(m.id, i, t)) else out[i])
  {
    seq(|out|, i requires 0 <= i < |out| => if i in m.installed then Some(Evaluation(m.id, i, t)) else out[i])
  }

  /** The four fields of the duo. */
  datatype DuoState = DuoState(thermo1: SubThermo, thermo2: SubThermo, p0: real, speciesToType: map<nat, int>)

  /**
   * The duo invariant: every species recorded under a flag is held by the
   * first sub-manager of that flag, and each sub-manager reports its own
   * flag.
   */
  predicate Valid(d: DuoState) {
    && (forall k :: k in d.speciesToType ==>
          (d.speciesToType[k] == d.thermo1.id && k in d.thermo1.installed)
          || (d.speciesToType[k] == d.thermo2.id != d.thermo1.id && k in d.thermo2.installed))
    && (forall k :: k in d.thermo1.installed ==> d.thermo1.installed[k].kind == d.thermo1.id)
    && (forall k :: k in d.thermo2.installed ==> d.thermo2.installed[k].kind == d.thermo2.id)
  }

  /**
   * install as a value: the reference pressure is stored first; then the
   * species goes to the first sub-manager whose flag equals kind, and the
   * flag is recorded for it once that sub-manager's install returns; a
   * throw from the sub-manager passes through with no flag recorded, and
   * any other kind throws, with the pressure already overwritten.
   */
  function InstallOf(d: DuoState, sp: nat, kind: int, c: seq<real>,
                   minTemp: real, maxTemp: real, refPressure: real): (DuoState, Result<()>)
  {
    var d1 := d.(p0 := refPressure);
    if kind == d.thermo1.id then
      var (m, res) := SubInstall(d.thermo1, sp, c, minTemp, maxTemp, refPressure);
      if res.Err? then (d1.(thermo1 := m), res)
      else (d1.(thermo1 := m, speciesToType := d.speciesToType[sp := d.thermo1.id]), Ok(()))
    else if kind == d.thermo2.id then
      var (m, res) := SubInstall(d.thermo2, sp, c, minTemp, maxTemp, refPressure);
      if res.Err? then (d1.(thermo2 := m), res)
      else (d1.(thermo2 := m, speciesToType := d.speciesToType[sp := d.thermo2.id]), Ok(()))
    else
      (d1, Err(UnknownSpeciesThermoType("SpeciesThermoDuo:install", kind)))
  }

  /** The sub-manager install selects for kind, if any: the first whose flag equals it. */
  function Target(d: DuoState, kind: int): Option<SubThermo> {
    if kind == d.thermo1.id then Some(d.thermo1)
    else if kind == d.thermo2.id then Some(d.thermo2)
    else None
  }

  /** Whether sub-manager m accepts a species with reference pressure refPressure. */
  predicate SubAccepts(m: SubThermo, refPressure: real) {
    !(m.strictP0 && m.p0 >= 0.0 && Abs(m.p0 - refPressure) > 0.1)
  }

  /** reportType: the recorded flag, or -1 for a species never installed. */
  function ReportTypeOf(d: DuoState, k: nat): int {
    if k in d.speciesToType then d.speciesToType[k] else -1
  }

  /** reportParams: ask the sub-manager of the species' reported flag; any other flag is "confused". */
  function ReportParamsOf(d: DuoState, k: nat): Result<Params> {
    var ctype := ReportTypeOf(d, k);
    if ctype == d.thermo1.id then SubReport(d.thermo1, k)
    else if ctype == d.thermo2.id then SubReport(d.thermo2, k)
    else Err(CanteraError("  ", "confused"))
  }

  /** minTemp, whatever k: the larger of the two sub-managers' common minima. */
  function MinTempOf(d: DuoState): real {
    Max(d.thermo1.tlowMax, d.thermo2.tlowMax)
  }

  /** maxTemp, whatever k: the smaller of the two sub-managers' common maxima. */
  function MaxTempOf(d: DuoState): real {
    Min(d.thermo1.thighMin, d.thermo2.thighMin)
  }

  /** update: the first sub-manager writes its species, then the second writes its own. */
  function UpdateOf(d: DuoState, t: real, out: seq<Option<Evaluation>>): seq<Option<Evaluation>> {
    SubUpdate(d.thermo2, t, SubUpdate(d.thermo1, t, out))
  }

  /**
   * install routes by flag: it succeeds iff kind is one of the two flags
   * and the sub-manager of that flag accepts the reference pressure; the
   * duo's pressure is the new one either way.  An unknown kind changes
   * nothing else; a sub-manager's throw leaves the species stored in that
   * sub-manager but records no flag; an accepted install records kind for
   * sp; no other species' flag changes.
   */
  lemma InstallRoutes(d: DuoState, sp: nat, kind: int, c: seq<real>,
                      minTemp: real, maxTemp: real, refPressure: real)
    ensures var r := InstallOf(d, sp, kind, c, minTemp, maxTemp, refPressure);
            && (r.1.Ok? <==> Target(d, kind).Some? && SubAccepts(Target(d, kind).value, refPressure))
            && r.0.p0 == refPressure
            && (Target(d, kind).None? ==>
                  r.0 == d.(p0 := refPressure) && r.1 == Err(UnknownSpeciesThermoType("SpeciesThermoDuo:install", kind)))
            && (Target(d, kind).Some? && !SubAccepts(Target(d, kind).value, refPressure) ==>
                  && r.1 == Err(PressureMismatch)
                  && r.0.speciesToType == d.speciesToType
                  && SubReport(if kind == d.thermo1.id then r.0.thermo1 else r.0.thermo2, sp)
                       == Ok(Params(kind, c, minTemp, maxTemp, refPressure)))
            && (r.1.Ok? ==> ReportTypeOf(r.0, sp) == kind)
            && (forall j :: j != sp ==> ReportTypeOf(r.0, j) == ReportTypeOf(d, j))
  {
  }

  /** An accepted install keeps the invariant, and reportParams gives back what was installed. */
  lemma InstallThenReport(d: DuoState, sp: nat, kind: int, c: seq<real>,
                          minTemp: real, maxTemp: real, refPressure: real)
    requires Valid(d)
    ensures var r := InstallOf(d, sp, kind, c, minTemp, maxTemp, refPressure);
            && Valid(r.0)
            && (r.1.Ok? ==> ReportParamsOf(r.0, sp) == Ok(Params(kind, c, minTemp, maxTemp, refPressure)))
  {
    var r := InstallOf(d, sp, kind, c, minTemp, maxTemp, refPressure);
    if kind == d.thermo1.id {
      assert r.0.thermo1 == SubInstall(d.thermo1, sp, c, minTemp, maxTemp, refPressure).0;
    } else if kind == d.thermo2.id {
      assert r.0.thermo2 == SubInstall(d.thermo2, sp, c, minTemp, maxTemp, refPressure).0;
    }
  }

  /**
   * In a valid duo reportParams succeeds exactly for recorded species; a
   * species never installed is "confused" unless -1 happens to be one of
   * the flags.
   */
  lemma ReportDefined(d: DuoState, k: nat)
    requires Valid(d)
    ensures k in d.speciesToType ==> ReportParamsOf(d, k).Ok? && ReportParamsOf(d, k).value.kind == ReportTypeOf(d, k)
    ensures k !in d.speciesToType && d.thermo1.id != -1 && d.thermo2.id != -1 ==>
              ReportParamsOf(d, k) == Err(CanteraError("  ", "confused"))
  {
    if k in d.speciesToType {
      if d.speciesToType[k] == d.thermo1.id {
        assert k in d.thermo1.installed;
      } else {
        assert k in d.thermo2.installed;
      }
    }
  }

  /** InstallThenReport's invariant clause, stated for any duo so that callers need not establish Valid first. */
  lemma InstallThenReportAnyState(d: DuoState, sp: nat, kind: int, c: seq<real>,
                                  minTemp: real, maxTemp: real, refPressure: real)
    ensures Valid(d) ==> Valid(InstallOf(d, sp, kind, c, minTemp, maxTemp, refPressure).0)
  {
    if Valid(d) {
      InstallThenReport(d, sp, kind, c, minTemp, maxTemp, refPressure);
    }
  }

  /** ReportDefined, stated for any duo so that callers need not establish Valid first. */
  lemma ReportDefinedAnyState(d: DuoState, k: nat)
    ensures Valid(d) && k in d.speciesToType ==>
              ReportParamsOf(d, k).Ok? && ReportParamsOf(d, k).value.kind == ReportTypeOf(d, k)
    ensures Valid(d) && k !in d.speciesToType && d.thermo1.id != -1 && d.thermo2.id != -1 ==>
              ReportParamsOf(d, k) == Err(CanteraError("  ", "confused"))
  {
    if Valid(d) {
      ReportDefined(d, k);
    }
  }

  /**
   * The duo's common range lies inside both sub-managers' ranges and is
   * bounded by one of them at each end.
   */
  lemma CommonRange(d: DuoState)
    ensures d.thermo1.tlowMax <= MinTempOf(d) && d.thermo2.tlowMax <= MinTempOf(d)
    ensures MinTempOf(d) == d.thermo1.tlowMax || MinTempOf(d) == d.thermo2.tlowMax
    ensures MaxTempOf(d) <= d.thermo1.thighMin && MaxTempOf(d) <= d.thermo2.thighMin
    ensures MaxTempOf(d) == d.thermo1.thighMin || MaxTempOf(d) == d.thermo2.thighMin
  {
  }

  /**
   * update and reportType agree for a species held by its own sub-manager
   * only: its slot holds the evaluation by the recorded flag.  (A species
   * re-installed under the other flag stays in both sub-managers, and the
   * second one's write then wins.)  Slots of species held by neither are
   * left as they were.
   */
  lemma UpdateFollowsType(d: DuoState, t: real, out: seq<Option<Evaluation>>, k: nat)
    requires Valid(d) && k < |out|
    ensures k in d.speciesToType && !(k in d.thermo1.installed && k in d.thermo2.installed) ==>
              UpdateOf(d, t, out)[k] == Some(Evaluation(ReportTypeOf(d, k), k, t))
    ensures k !in d.thermo1.installed && k !in d.thermo2.installed ==> UpdateOf(d, t, out)[k] == out[k]
  {
    var mid := SubUpdate(d.thermo1, t, out);
    assert UpdateOf(d, t, out)[k] == (if k in d.thermo2.installed then Some(Evaluation(d.thermo2.id, k, t)) else mid[k]);
  }

  /** The manager. */
  class SpeciesThermoDuo {
    var thermo1: SubThermo
    var thermo2: SubThermo
    var p0: real
    var speciesToType: map<nat, int>

    function State(): DuoState
      reads this
    {
      DuoState(thermo1, thermo2, p0, speciesToType)
    }

    /**
     * A duo over two freshly built sub-managers and no species; the source
     * leaves m_p0 uninitialised, so its first value is a parameter here.
     */
    constructor(t1: SubThermo, t2: SubThermo, p0Init: real)
      requires t1.installed == map[] && t2.installed == map[]
      ensures State() == DuoState(t1, t2, p0Init, map[]) && Valid(State())
    {
      thermo1, thermo2, p0, speciesToType := t1, t2, p0Init, map[];
    }

    /** operator=: copy all four fields; assigning a duo to itself changes nothing. */
    method Assign(right: SpeciesThermoDuo)
      modifies this
      ensures State() == old(right.State())
    {
      if right == this {
        return;
      }
      thermo1 := right.thermo1;
      thermo2 := right.thermo2;
      p0 := right.p0;
      speciesToType := right.speciesToType;
    }

    /**
     * install: store the pressure, then route species sp by kind; a throw
     * from the sub-manager leaves the species' flag unrecorded.
     */
    method Install(name: string, sp: nat, kind: int, c: seq<real>,
                   minTemp: real, maxTemp: real, refPressure: real) returns (r: Result<()>)
      modifies this
      ensures (State(), r) == InstallOf(old(State()), sp, kind, c, minTemp, maxTemp, refPressure)
      ensures old(Valid(State())) ==> Valid(State())
    {
      InstallThenReportAnyState(State(), sp, kind, c, minTemp, maxTemp, refPressure);
      p0 := refPressure;
      if kind == thermo1.id {
        var sub := SubInstall(thermo1, sp, c, minTemp, maxTemp, refPressure);
        thermo1 := sub.0;
        if sub.1.Err? {
          return sub.1;
        }
        speciesToType := speciesToType[sp := thermo1.id];
      } else if kind == thermo2.id {
        var sub := SubInstall(thermo2, sp, c, minTemp, maxTemp, refPressure);
        thermo2 := sub.0;
        if sub.1.Err? {
          return sub.1;
        }
        speciesToType := speciesToType[sp := thermo2.id];
      } else {
        return Err(UnknownSpeciesThermoType("SpeciesThermoDuo:install", kind));
      }
      r := Ok(());
    }

    /** update: m_thermo1 then m_thermo2, on the same output array. */
    method Update(t: real, out: array<Option<Evaluation>>)
      requires forall i :: i in thermo1.installed ==> i < out.Length
      requires forall i :: i in thermo2.installed ==> i < out.Length
      modifies out
      ensures out[..] == UpdateOf(State(), t, old(out[..]))
    {
      UpdateSub(thermo1, t, out);
      UpdateSub(thermo2, t, out);
    }

    /** minTemp, whatever k: the larger of the two sub-managers' minima. */
    function MinTemp(k: Option<nat>): (r: real)
      reads this
      ensures thermo1.tlowMax <= r && thermo2.tlowMax <= r
      ensures r == thermo1.tlowMax || r == thermo2.tlowMax
    {
      MinTempOf(State())
    }

    /** maxTemp, whatever k: the smaller of the two sub-managers' maxima. */
    function MaxTemp(k: Option<nat>): (r: real)
      reads this
      ensures r <= thermo1.thighMin && r <= thermo2.thighMin
      ensures r == thermo1.thighMin || r == thermo2.thighMin
    {
      MaxTempOf(State())
    }

    function RefPressure(k: Option<nat>): real
      reads this
    {
      p0
    }

    /** reportType: the flag recorded when the species was installed, -1 if it never was. */
    function ReportType(k: nat): (r: int)
      reads this
      ensures k in speciesToType ==> r == speciesToType[k]
      ensures k !in speciesToType ==> r == -1
    {
      ReportTypeOf(State(), k)
    }

    /**
     * reportParams: in a valid duo, a recorded species reports its
     * parameters under its recorded flag; an unrecorded one is "confused".
     */
    function ReportParams(k: nat): (r: Result<Params>)
      reads this
      ensures Valid(State()) && k in speciesToType ==> r.Ok? && r.value.kind == ReportType(k)
      ensures Valid(State()) && k !in speciesToType && thermo1.id != -1 && thermo2.id != -1 ==>
                r == Err(CanteraError("  ", "confused"))
    {
      ReportDefinedAnyState(State(), k);
      ReportParamsOf(State(), k)
    }
  }

  /** One sub-manager's update on the shared output array. */
  method UpdateSub(m: SubThermo, t: real, out: array<Option<Evaluation>>)
    requires forall i :: i in m.installed ==> i < out.Length
    modifies out
    ensures out[..] == SubUpdate(m, t, old(out[..]))
  {
    forall i | i in m.installed {
      out[i] := Some(Evaluation(m.id, i, t));
    }
  }
}
