/**
 * NasaThermo as it stands on the jacobians branch: the grouping manager of
 * NasaGroups, where a second reference pressure differing by more than 0.1 Pa
 * is a fatal error -- raised only after the new polynomials, maps and limits
 * are already stored.
 */
module NasaThermoJacobians {
  import opened ThermoTypes
  import opened NasaGroups

  /**
   * The reference-pressure step of install, on the state s1 install has
   * built so far: the first pressure is adopted; a later one more than
   * 0.1 Pa away from the stored one throws and leaves the stored one;
   * otherwise the newest is stored.  Only m_p0 ever changes.
   */
  function CheckPressure(s1: NasaState, refPressure: real): (r: (NasaState, Result<()>))
    ensures r.0 == s1.(p0 := r.0.p0)
    ensures r.1.Ok? ==> r.0.p0 == refPressure
    ensures r.1.Err? ==> r.0.p0 == s1.p0 && s1.p0 >= 0.0
  {
    if s1.p0 < 0.0 then (s1.(p0 := refPressure), Ok(()))
    else if Abs(s1.p0 - refPressure) > 0.1 then
      (s1, Err(CanteraError("install()", "species have different reference pressures")))
    else (s1.(p0 := refPressure), Ok(()))
  }

  /**
   * install as a value: the new state and whether install threw.  The
   * reference-pressure check comes last, after everything else is stored.
   */
  function StrictInstall(s: NasaState, name: string, k: nat, c: seq<real>,
                         minTemp: real, maxTemp: real, refPressure: real): (NasaState, Result<()>)
    requires Valid(s) && |c| >= 15
  {
    CheckPressure(InstallPolys(s, name, k, c, minTemp, maxTemp, refPressure), refPressure)
  }

  /**
   * install keeps the manager invariant and, whether or not it throws,
   * reportParams for the species gives back exactly what was installed:
   * nothing is rolled back.
   */
  lemma StrictInstallStores(s: NasaState, name: string, k: nat, c: seq<real>,
                            minTemp: real, maxTemp: real, refPressure: real)
    requires Valid(s) && |c| >= 15
    ensures var r := StrictInstall(s, name, k, c, minTemp, maxTemp, refPressure);
            && Valid(r.0)
            && ReportParamsOf(r.0, k) == Ok(Params(NASA, c[..15], minTemp, maxTemp, refPressure))
            && MinTempOf(r.0, Some(k)) == Ok(minTemp) && MaxTempOf(r.0, Some(k)) == Ok(maxTemp)
  {
    var s1 := InstallPolys(s, name, k, c, minTemp, maxTemp, refPressure);
    InstallThenReport(s, name, k, c, minTemp, maxTemp, refPressure);
    InstallLimits(s, name, k, c, minTemp, maxTemp, refPressure);
    PressureIsSeparate(s1, refPressure, k);
  }

  /**
   * The reference-pressure rule: install throws iff a pressure is already
   * stored and the new one is more than 0.1 Pa away from it; on success the
   * newest pressure is stored, and on failure the state is exactly what
   * install built before the check, with the old pressure.
   */
  lemma StrictInstallPressure(s: NasaState, name: string, k: nat, c: seq<real>,
                              minTemp: real, maxTemp: real, refPressure: real)
    requires Valid(s) && |c| >= 15
    ensures var r := StrictInstall(s, name, k, c, minTemp, maxTemp, refPressure);
            && (r.1.Err? <==> s.p0 >= 0.0 && (s.p0 - refPressure > 0.1 || refPressure - s.p0 > 0.1))
            && (r.1.Ok? ==> r.0.p0 == refPressure)
            && (r.1.Err? ==> r.0 == InstallPolys(s, name, k, c, minTemp, maxTemp, refPressure) && r.0.p0 == s.p0)
  {
    var s1 := InstallPolys(s, name, k, c, minTemp, maxTemp, refPressure);
    assert s1.p0 == s.p0;
  }

  /**
   * The manager.  Its fields are those of the source class (the scratch
   * vector m_t aside); State() gathers them into a NasaState.
   */
  class NasaThermo {
    var high: seq<seq<NasaPoly>>
    var low: seq<seq<NasaPoly>>
    var tmidIndex: map<int, nat>
    var tmid: seq<real>
    var tlowMax: real
    var thighMin: real
    var tlow: seq<real>
    var thigh: seq<real>
    var p0: real
    var ngroups: int
    var groupMap: map<nat, nat>
    var posInGroupMap: map<nat, nat>
    var names: map<nat, string>

    function State(): NasaState
      reads this
    {
      NasaState(high, low, tmidIndex, tmid, tlowMax, thighMin, tlow, thigh, p0, ngroups, groupMap, posInGroupMap, names)
    }

    ghost predicate Valid()
      reads this
    {
      NasaGroups.Valid(State())
    }

    /** An empty manager: no groups, common range [0, 1e30], no reference pressure yet. */
    constructor()
      ensures State() == Initial && Valid()
    {
      high, low, tmidIndex, tmid := [], [], map[], [];
      tlowMax, thighMin, tlow, thigh := 0.0, 1.0e30, [], [];
      p0, ngroups := -1.0, 0;
      groupMap, posInGroupMap, names := map[], map[], map[];
      InitialValid();
    }

    /**
     * install: file species index's polynomials (c[0] midpoint, c[1..7]
     * low range, c[8..14] high range) under the group of int(c[0]).
     */
    method Install(name: string, index: nat, kind: int, c: seq<real>,
                   minTemp: real, maxTemp: real, refPressure: real) returns (r: Result<()>)
      requires Valid() && |c| >= 15
      modifies this
      ensures (State(), r) == StrictInstall(old(State()), name, index, c, minTemp, maxTemp, refPressure)
      ensures Valid()
    {
      Store(name, index, c, minTemp, maxTemp, refPressure);
      ghost var s1 := State();
      r := CheckRefPressure(refPressure);
      PressureIsSeparate(s1, p0, index);
    }

    /** The reference-pressure step of install. */
    method CheckRefPressure(refPressure: real) returns (r: Result<()>)
      modifies this
      ensures (State(), r) == CheckPressure(old(State()), refPressure)
    {
      if p0 < 0.0 {
        p0 := refPressure;
      } else if Abs(p0 - refPressure) > 0.1 {
        return Err(CanteraError("install()", "species have different reference pressures"));
      }
      p0 := refPressure;
      r := Ok(());
    }

    /** Everything install does before the reference-pressure step. */
    method Store(name: string, index: nat, c: seq<real>, minTemp: real, maxTemp: real, refPressure: real)
      requires Valid() && |c| >= 15
      modifies this
      ensures State() == InstallPolys(old(State()), name, index, c, minTemp, maxTemp, refPressure)
      ensures Valid()
    {
      InstallPolysValid(State(), name, index, c, minTemp, maxTemp, refPressure);
      var igrp := OpenGroupFor(c[0]);
      var clow, chigh := c[1..8], c[8..15];
      AppendPairAt(igrp, name, NasaPoly(index, minTemp, c[0], refPressure, clow), NasaPoly(index, c[0], maxTemp, refPressure, chigh));
      UpdateLimits(index, minTemp, maxTemp);
    }

    /** Find the group of int(tm), opening a new one (1-based) if there is none. */
    method OpenGroupFor(tm: real) returns (igrp: nat)
      requires Valid()
      modifies this
      ensures State() == OpenGroup(old(State()), tm) && igrp == tmidIndex[Trunc(tm)]
      ensures 1 <= igrp <= |low| && |low| == |high| && |tlow| == |thigh|
    {
      var imid := Trunc(tm);
      igrp := if imid in tmidIndex then tmidIndex[imid] else 0;
      if igrp == 0 {
        high := high + [[]];
        low := low + [[]];
        tmid := tmid + [tm];
        igrp := |high|;
        tmidIndex := tmidIndex[imid := igrp];
        ngroups := ngroups + 1;
      }
    }

    /** Record species lo.index and push its pair onto group igrp. */
    method AppendPairAt(igrp: nat, name: string, lo: NasaPoly, hi: NasaPoly)
      requires 1 <= igrp <= |low| && |low| == |high|
      modifies this
      ensures State() == AppendPair(old(State()), igrp, name, lo, hi)
    {
      names := names[lo.index := name];
      groupMap := groupMap[lo.index := igrp];
      posInGroupMap := posInGroupMap[lo.index := |low[igrp - 1]|];
      high := high[igrp - 1 := high[igrp - 1] + [hi]];
      low := low[igrp - 1 := low[igrp - 1] + [lo]];
    }

    /** Update the running limits and the species limit tables for species index. */
    method UpdateLimits(index: nat, minTemp: real, maxTemp: real)
      requires |tlow| == |thigh|
      modifies this
      ensures State() == RecordLimits(old(State()), index, minTemp, maxTemp)
    {
      if minTemp > tlowMax {
        tlowMax := minTemp;
      }
      if maxTemp < thighMin {
        thighMin := maxTemp;
      }
      if |tlow| < index + 1 {
        tlow := Resized(tlow, index + 1, minTemp);
        thigh := Resized(thigh, index + 1, maxTemp);
      }
      tlow := tlow[index := minTemp];
      thigh := thigh[index := maxTemp];
    }

    /**
     * update_one: evaluate species k alone, writing its entry of out with
     * the low polynomial iff t is below k's own midpoint.
     */
    method UpdateOne(k: nat, t: real, out: array<Option<NasaPoly>>) returns (r: Result<()>)
      requires Valid() && k < out.Length
      modifies out
      ensures r.Ok? <==> k in groupMap
      ensures r.Ok? ==> out[..] == old(out[..])[k := Some(UpdateOneSel(State(), k, t).value)]
      ensures r.Err? ==> out[..] == old(out[..])
    {
      if k !in groupMap {
        return Err(OutOfRange("species without NASA parameters"));
      }
      var grp, pos := groupMap[k], posInGroupMap[k];
      var nlow := low[grp - 1][pos];
      if t < nlow.tmax {
        out[nlow.index] := Some(nlow);
      } else {
        var nhigh := high[grp - 1][pos];
        out[nhigh.index] := Some(nhigh);
      }
      r := Ok(());
    }

    /**
     * update: for each group in turn, evaluate every polynomial of its high
     * list if t is above the group's midpoint, of its low list otherwise.
     */
    method Update(t: real, out: array<Option<NasaPoly>>)
      requires Valid() && IndicesBelow(State(), out.Length)
      modifies out
      ensures out[..] == Apply(old(out[..]), UpdateSel(State(), t, ngroups))
    {
      GroupSelBelow(State(), t, out.Length);
      UpdateGroups(State(), t, out);
    }

    /** minTemp: the common lower limit, or species k's own. */
    function MinTemp(k: Option<nat>): (r: Result<real>)
      reads this
      ensures r.Ok? <==> k.None? || k.value < |tlow|
      ensures k.None? ==> r == Ok(tlowMax)
      ensures Valid() && r.Ok? ==> r.value <= tlowMax
    {
      LimitsAroundCommon(State(), k);
      MinTempOf(State(), k)
    }

    /** maxTemp: the common upper limit, or species k's own. */
    function MaxTemp(k: Option<nat>): (r: Result<real>)
      reads this
      ensures r.Ok? <==> k.None? || k.value < |thigh|
      ensures k.None? ==> r == Ok(thighMin)
      ensures Valid() && r.Ok? ==> thighMin <= r.value
    {
      LimitsAroundCommon(State(), k);
      MaxTempOf(State(), k)
    }

    /** refPressure: one pressure for the whole manager, whatever k. */
    function RefPressure(k: Option<nat>): real
      reads this
    {
      p0
    }

    /** reportType: every species is NASA. */
    function ReportType(k: nat): int {
      NASA
    }

    /** reportParams: the 15-slot array, limits and pressure stored for species k. */
    function ReportParams(k: nat): (r: Result<Params>)
      reads this
      requires Valid()
      ensures r.Ok? <==> k in groupMap
      ensures r.Ok? ==> r.value.kind == ReportType(k) && |r.value.coeffs| == 15
    {
      ReportParamsDefined(State(), k);
      ReportParamsOf(State(), k)
    }
  }
}
