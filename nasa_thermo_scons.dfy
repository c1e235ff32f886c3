/**
 * NasaThermo as it stands on the scons branch: the grouping manager of
 * NasaGroups where a second reference pressure only draws a warning and
 * the newest one is kept, plus modifyParams (replace a species'
 * coefficients in place) and the assignment operator.
 */
module NasaThermoScons {
  import opened ThermoTypes
  import opened NasaGroups
  import NasaThermoJacobians

  /**
   * install as a value: everything the grouping install stores, then the
   * newest reference pressure, whatever the old one was (a mismatch is only
   * logged).
   */
  function WarnInstall(s: NasaState, name: string, k: nat, c: seq<real>,
                       minTemp: real, maxTemp: real, refPressure: real): NasaState
    requires Valid(s) && |c| >= 15
  {
    InstallPolys(s, name, k, c, minTemp, maxTemp, refPressure).(p0 := refPressure)
  }

  /**
   * install never fails here: it keeps the manager invariant, reportParams
   * gives back exactly what was installed, the species' own limits are
   * stored, and refPressure is the newest pressure.
   */
  lemma WarnInstallStores(s: NasaState, name: string, k: nat, c: seq<real>,
                          minTemp: real, maxTemp: real, refPressure: real)
    requires Valid(s) && |c| >= 15
    ensures var r := WarnInstall(s, name, k, c, minTemp, maxTemp, refPressure);
            && Valid(r)
            && r.p0 == refPressure
            && ReportParamsOf(r, k) == Ok(Params(NASA, c[..15], minTemp, maxTemp, refPressure))
            && MinTempOf(r, Some(k)) == Ok(minTemp) && MaxTempOf(r, Some(k)) == Ok(maxTemp)
            && MinTempOf(r, None) == Ok(Max(s.tlowMax, minTemp)) && MaxTempOf(r, None) == Ok(Min(s.thighMin, maxTemp))
  {
    var s1 := InstallPolys(s, name, k, c, minTemp, maxTemp, refPressure);
    InstallThenReport(s, name, k, c, minTemp, maxTemp, refPressure);
    InstallLimits(s, name, k, c, minTemp, maxTemp, refPressure);
    PressureIsSeparate(s1, refPressure, k);
  }

  /**
   * The two branches store the same state exactly when the jacobians
   * install does not throw; when it throws, they differ only in the
   * reference pressure, which this branch overwrites and the other keeps.
   */
  lemma VariantsDifferOnlyInPressure(s: NasaState, name: string, k: nat, c: seq<real>,
                                     minTemp: real, maxTemp: real, refPressure: real)
    requires Valid(s) && |c| >= 15
    ensures var w := WarnInstall(s, name, k, c, minTemp, maxTemp, refPressure);
            var j := NasaThermoJacobians.StrictInstall(s, name, k, c, minTemp, maxTemp, refPressure);
            && (j.1.Ok? <==> w == j.0)
            && w == j.0.(p0 := refPressure)
  {
    var s1 := InstallPolys(s, name, k, c, minTemp, maxTemp, refPressure);
    assert s1.p0 == s.p0;
  }

  /**
   * modifyParams as a value.  A species never installed has no group (the
   * source would index outside its vectors); a midpoint c[0] other than the
   * stored one throws; otherwise the species' low polynomial takes
   * c[1..7] and its high polynomial c[8..14], and nothing else changes.
   */
  function ModifyParamsOf(s: NasaState, k: nat, c: seq<real>): (r: Result<NasaState>)
    requires SpeciesLocated(s) && |c| >= 15
    ensures r.Ok? <==> k in s.groupMap && c[0] == s.low[s.groupMap[k] - 1][s.posInGroupMap[k]].tmax
  {
    if k !in s.groupMap then Err(OutOfRange("species without NASA parameters"))
    else
      var g, pos := s.groupMap[k], s.posInGroupMap[k];
      var lo, hi := s.low[g - 1][pos], s.high[g - 1][pos];
      if c[0] != lo.tmax then Err(CanteraError(" ", "Tmid cannot be changed"))
      else
        Ok(s.(low := s.low[g - 1 := s.low[g - 1][pos := lo.(coeffs := c[1..8])]],
              high := s.high[g - 1 := s.high[g - 1][pos := hi.(coeffs := c[8..15])]]))
  }

  /** b is a with other coefficients of the same number. */
  predicate CoeffsOnly(a: NasaPoly, b: NasaPoly) {
    b == a.(coeffs := b.coeffs) && |b.coeffs| == |a.coeffs|
  }

  /** Lists of equal length whose entries differ at most in their coefficients. */
  predicate SameShapeList(a: seq<NasaPoly>, b: seq<NasaPoly>) {
    |a| == |b| && forall j :: 0 <= j < |a| ==> CoeffsOnly(a[j], b[j])
  }

  /** r is s with, at most, some polynomials' coefficients replaced. */
  predicate SameShape(s: NasaState, r: NasaState) {
    && r.(low := s.low, high := s.high) == s
    && |r.low| == |s.low| && |r.high| == |s.high|
    && (forall h :: 0 <= h < |s.low| ==> SameShapeList(s.low[h], r.low[h]))
    && (forall h :: 0 <= h < |s.high| ==> SameShapeList(s.high[h], r.high[h]))
  }

  lemma SameShapeShaped(s: NasaState, r: NasaState)
    requires Shaped(s) && SameShape(s, r)
    ensures Shaped(r)
  {
    forall h | 0 <= h < |r.low|
      ensures |r.low[h]| == |r.high[h]| && |r.low[h]| > 0 && r.low[h][0].tmax == r.tmid[h]
    {
      assert SameShapeList(s.low[h], r.low[h]) && SameShapeList(s.high[h], r.high[h]);
      assert CoeffsOnly(s.low[h][0], r.low[h][0]);
    }
  }

  lemma SameShapePaired(s: NasaState, r: NasaState)
    requires Shaped(s) && Paired(s) && Shaped(r) && SameShape(s, r)
    ensures Paired(r)
  {
    forall h, j | 0 <= h < |r.low| && 0 <= j < |r.low[h]|
      ensures PairOk(r.low[h][j], r.high[h][j], r.tmid[h])
    {
      assert PairOk(s.low[h][j], s.high[h][j], s.tmid[h]);
      assert SameShapeList(s.low[h], r.low[h]) && SameShapeList(s.high[h], r.high[h]);
      assert CoeffsOnly(s.low[h][j], r.low[h][j]) && CoeffsOnly(s.high[h][j], r.high[h][j]);
    }
  }

  lemma SameShapeLocated(s: NasaState, r: NasaState)
    requires SpeciesLocated(s) && SameShape(s, r)
    ensures SpeciesLocated(r)
  {
    forall kk | kk in r.groupMap
      ensures Located(r, kk) && r.low[r.groupMap[kk] - 1][r.posInGroupMap[kk]].index == kk
    {
      assert Located(s, kk) && s.low[s.groupMap[kk] - 1][s.posInGroupMap[kk]].index == kk;
      var g, pos := s.groupMap[kk] - 1, s.posInGroupMap[kk];
      assert SameShapeList(s.low[g], r.low[g]) && SameShapeList(s.high[g], r.high[g]);
      assert CoeffsOnly(s.low[g][pos], r.low[g][pos]);
    }
  }

  /** Replacing coefficients (seven by seven) keeps the manager invariant. */
  lemma SameShapeValid(s: NasaState, r: NasaState)
    requires Valid(s) && SameShape(s, r)
    ensures Valid(r)
  {
    SameShapeShaped(s, r);
    SameShapePaired(s, r);
    SameShapeLocated(s, r);
    assert Indexed(r) && Tabled(r);
  }

  /** A successful modifyParams only replaces coefficients. */
  lemma ModifyParamsShape(s: NasaState, k: nat, c: seq<real>)
    requires Shaped(s) && Paired(s) && SpeciesLocated(s) && |c| >= 15
    ensures ModifyParamsOf(s, k, c).Ok? ==> SameShape(s, ModifyParamsOf(s, k, c).value)
  {
    var m := ModifyParamsOf(s, k, c);
    if m.Ok? {
      var r, g, pos := m.value, s.groupMap[k] - 1, s.posInGroupMap[k];
      assert PairOk(s.low[g][pos], s.high[g][pos], s.tmid[g]);
      forall h | 0 <= h < |s.low|
        ensures SameShapeList(s.low[h], r.low[h]) && SameShapeList(s.high[h], r.high[h])
      {
        if h != g {
          assert r.low[h] == s.low[h] && r.high[h] == s.high[h];
        }
      }
    }
  }

  /** modifyParams keeps the manager invariant. */
  lemma ModifyParamsValid(s: NasaState, k: nat, c: seq<real>)
    requires Valid(s) && |c| >= 15
    ensures ModifyParamsOf(s, k, c).Ok? ==> Valid(ModifyParamsOf(s, k, c).value)
  {
    ModifyParamsShape(s, k, c);
    if ModifyParamsOf(s, k, c).Ok? {
      SameShapeValid(s, ModifyParamsOf(s, k, c).value);
    }
  }

  /** modifyParams moves no species: the maps and the locations stay valid. */
  lemma ModifyParamsLocated(s: NasaState, k: nat, c: seq<real>)
    requires Shaped(s) && Paired(s) && SpeciesLocated(s) && |c| >= 15
    ensures var m := ModifyParamsOf(s, k, c);
            m.Ok? ==> SpeciesLocated(m.value) && m.value.groupMap == s.groupMap && m.value.posInGroupMap == s.posInGroupMap
  {
    ModifyParamsShape(s, k, c);
    if ModifyParamsOf(s, k, c).Ok? {
      SameShapeLocated(s, ModifyParamsOf(s, k, c).value);
    }
  }

  /**
   * The entry at position j of group h after modifyParams on species k:
   * new coefficients at k's own position, unchanged everywhere else.
   */
  lemma ModifiedEntry(s: NasaState, k: nat, c: seq<real>, h: nat, j: nat)
    requires SpeciesLocated(s) && |c| >= 15 && k in s.groupMap
    requires h < |s.low| && j < |s.low[h]| && j < |s.high[h]|
    ensures var m := ModifyParamsOf(s, k, c);
            m.Ok? ==>
              && |m.value.low| == |s.low| && |m.value.high| == |s.high|
              && |m.value.low[h]| == |s.low[h]| && |m.value.high[h]| == |s.high[h]|
              && if h == s.groupMap[k] - 1 && j == s.posInGroupMap[k]
                 then m.value.low[h][j] == s.low[h][j].(coeffs := c[1..8]) && m.value.high[h][j] == s.high[h][j].(coeffs := c[8..15])
                 else m.value.low[h][j] == s.low[h][j] && m.value.high[h][j] == s.high[h][j]
  {
    assert Located(s, k);
  }

  /** The 15-slot array is its midpoint, its low block and its high block. */
  lemma Fifteen(c: seq<real>)
    requires |c| >= 15
    ensures [c[0]] + c[1..8] + c[8..15] == c[..15]
  {
  }

  /**
   * After a successful modifyParams, reportParams for the species returns
   * the new array with the range and pressure it had before.
   */
  lemma ModifyThenReport(s: NasaState, k: nat, c: seq<real>)
    requires Valid(s) && |c| >= 15
    ensures var m := ModifyParamsOf(s, k, c);
            m.Ok? ==> (SpeciesLocated(m.value) && ReportParamsOf(s, k).Ok? &&
              var before := ReportParamsOf(s, k).value;
              ReportParamsOf(m.value, k) == Ok(Params(NASA, c[..15], before.tmin, before.tmax, before.p0)))
  {
    var m := ModifyParamsOf(s, k, c);
    if m.Ok? {
      ModifyParamsLocated(s, k, c);
      ReportParamsDefined(s, k);
      var g, pos := s.groupMap[k] - 1, s.posInGroupMap[k];
      assert Located(s, k);
      ModifiedEntry(s, k, c, g, pos);
      assert PairOk(s.low[g][pos], s.high[g][pos], s.tmid[g]);
      Fifteen(c);
    }
  }

  /** modifyParams on species k leaves what every other species reports untouched. */
  lemma ModifyLeavesOthers(s: NasaState, k: nat, c: seq<real>, j: nat)
    requires Valid(s) && |c| >= 15 && j != k
    ensures var m := ModifyParamsOf(s, k, c);
            m.Ok? ==> SpeciesLocated(m.value) && ReportParamsOf(m.value, j) == ReportParamsOf(s, j)
  {
    var m := ModifyParamsOf(s, k, c);
    if m.Ok? {
      ModifyParamsLocated(s, k, c);
      var r := m.value;
      if j in s.groupMap {
        var gj, pj := s.groupMap[j] - 1, s.posInGroupMap[j];
        assert Located(s, j) && s.low[gj][pj].index == j;
        assert s.low[s.groupMap[k] - 1][s.posInGroupMap[k]].index == k;
        ModifiedEntry(s, k, c, gj, pj);
        assert r.low[gj][pj] == s.low[gj][pj] && r.high[gj][pj] == s.high[gj][pj];
        assert r.groupMap[j] - 1 == gj && r.posInGroupMap[j] == pj;
      }
    }
  }

  /**
   * The manager.  Its fields are those of the source class (the scratch
   * vector m_t aside); State() gathers them into a NasaState.
   */
  class NasaThermo {
    var high: seq<seq<NasaPoly>>
    var low: seq<seq<NasaPoly>>
    var tmidIndex: map<int, nat>
    var tmid: seq<real>
    var tlowMax: real
    var thighMin: real
    var tlow: seq<real>
    var thigh: seq<real>
    var p0: real
    var ngroups: int
    var groupMap: map<nat, nat>
    var posInGroupMap: map<nat, nat>
    var names: map<nat, string>

    function State(): NasaState
      reads this
    {
      NasaState(high, low, tmidIndex, tmid, tlowMax, thighMin, tlow, thigh, p0, ngroups, groupMap, posInGroupMap, names)
    }

    ghost predicate Valid()
      reads this
    {
      NasaGroups.Valid(State())
    }

    /** An empty manager: no groups, common range [0, 1e30], no reference pressure yet. */
    constructor()
      ensures State() == Initial && Valid()
    {
      high, low, tmidIndex, tmid := [], [], map[], [];
      tlowMax, thighMin, tlow, thigh := 0.0, 1.0e30, [], [];
      p0, ngroups := -1.0, 0;
      groupMap, posInGroupMap, names := map[], map[], map[];
      InitialValid();
    }

    /**
     * operator=: copy every field of right; assigning a manager to itself
     * changes nothing.
     */
    method Assign(right: NasaThermo)
      modifies this
      ensures State() == old(right.State())
    {
      if this == right {
        return;
      }
      SetState(right.State());
    }

    /** Overwrite every field with the corresponding part of st. */
    method SetState(st: NasaState)
      modifies this
      ensures State() == st
    {
      SetGroups(st);
      SetLimits(st);
      SetSpecies(st);
    }

    /** The group tables of st. */
    method SetGroups(st: NasaState)
      modifies this`high, this`low, this`tmidIndex, this`tmid, this`ngroups
      ensures high == st.high && low == st.low && tmidIndex == st.tmidIndex
      ensures tmid == st.tmid && ngroups == st.ngroups
    {
      high, low, tmidIndex, tmid, ngroups := st.high, st.low, st.tmidIndex, st.tmid, st.ngroups;
    }

    /** The temperature limits and reference pressure of st. */
    method SetLimits(st: NasaState)
      modifies this`tlowMax, this`thighMin, this`tlow, this`thigh, this`p0
      ensures tlowMax == st.tlowMax && thighMin == st.thighMin && tlow == st.tlow
      ensures thigh == st.thigh && p0 == st.p0
    {
      tlowMax, thighMin, tlow, thigh, p0 := st.tlowMax, st.thighMin, st.tlow, st.thigh, st.p0;
    }

    /** The species maps of st. */
    method SetSpecies(st: NasaState)
      modifies this`groupMap, this`posInGroupMap, this`names
      ensures groupMap == st.groupMap && posInGroupMap == st.posInGroupMap && names == st.names
    {
      groupMap, posInGroupMap, names := st.groupMap, st.posInGroupMap, st.names;
    }

    /**
     * install: file species index's polynomials (c[0] midpoint, c[1..7]
     * low range, c[8..14] high range) under the group of int(c[0]), then
     * store the newest reference pressure.
     */
    method Install(name: string, index: nat, kind: int, c: seq<real>,
                   minTemp: real, maxTemp: real, refPressure: real)
      requires Valid() && |c| >= 15
      modifies this
      ensures State() == WarnInstall(old(State()), name, index, c, minTemp, maxTemp, refPressure)
      ensures Valid()
    {
      Store(name, index, c, minTemp, maxTemp, refPressure);
      PressureIsSeparate(State(), refPressure, index);
      p0 := refPressure;
    }

    /** Everything install does before the reference-pressure step. */
    method Store(name: string, index: nat, c: seq<real>, minTemp: real, maxTemp: real, refPressure: real)
      requires Valid() && |c| >= 15
      modifies this
      ensures State() == InstallPolys(old(State()), name, index, c, minTemp, maxTemp, refPressure)
      ensures Valid()
    {
      InstallPolysValid(State(), name, index, c, minTemp, maxTemp, refPressure);
      var igrp := OpenGroupFor(c[0]);
      var clow, chigh := c[1..8], c[8..15];
      AppendPairAt(igrp, name, NasaPoly(index, minTemp, c[0], refPressure, clow), NasaPoly(index, c[0], maxTemp, refPressure, chigh));
      UpdateLimits(index, minTemp, maxTemp);
    }

    /** Find the group of int(tm), opening a new one (1-based) if there is none. */
    method OpenGroupFor(tm: real) returns (igrp: nat)
      requires Valid()
      modifies this
      ensures State() == OpenGroup(old(State()), tm) && igrp == tmidIndex[Trunc(tm)]
      ensures 1 <= igrp <= |low| && |low| == |high| && |tlow| == |thigh|
    {
      var imid := Trunc(tm);
      igrp := if imid in tmidIndex then tmidIndex[imid] else 0;
      if igrp == 0 {
        high := high + [[]];
        low := low + [[]];
        tmid := tmid + [tm];
        igrp := |high|;
        tmidIndex := tmidIndex[imid := igrp];
        ngroups := ngroups + 1;
      }
    }

    /** Record species lo.index and push its pair onto group igrp. */
    method AppendPairAt(igrp: nat, name: string, lo: NasaPoly, hi: NasaPoly)
      requires 1 <= igrp <= |low| && |low| == |high|
      modifies this
      ensures State() == AppendPair(old(State()), igrp, name, lo, hi)
    {
      names := names[lo.index := name];
      groupMap := groupMap[lo.index := igrp];
      posInGroupMap := posInGroupMap[lo.index := |low[igrp - 1]|];
      high := high[igrp - 1 := high[igrp - 1] + [hi]];
      low := low[igrp - 1 := low[igrp - 1] + [lo]];
    }

    /** Update the running limits and the species limit tables for species index. */
    method UpdateLimits(index: nat, minTemp: real, maxTemp: real)
      requires |tlow| == |thigh|
      modifies this
      ensures State() == RecordLimits(old(State()), index, minTemp, maxTemp)
    {
      if minTemp > tlowMax {
        tlowMax := minTemp;
      }
      if maxTemp < thighMin {
        thighMin := maxTemp;
      }
      if |tlow| < index + 1 {
        tlow := Resized(tlow, index + 1, minTemp);
        thigh := Resized(thigh, index + 1, maxTemp);
      }
      tlow := tlow[index := minTemp];
      thigh := thigh[index := maxTemp];
    }

    /**
     * modifyParams: replace species index's low and high coefficients in
     * place, refusing a changed midpoint.  On failure nothing changes.
     */
    method ModifyParams(index: nat, c: seq<real>) returns (r: Result<()>)
      requires Valid() && |c| >= 15
      modifies this
      ensures var m := ModifyParamsOf(old(State()), index, c);
              && r.Ok? == m.Ok?
              && State() == (if m.Ok? then m.value else old(State()))
      ensures Valid()
    {
      ModifyParamsValid(State(), index, c);
      r := ReplaceCoeffs(index, c);
    }

    /** The work of modifyParams, which needs of the invariant only that every species is located. */
    method ReplaceCoeffs(index: nat, c: seq<real>) returns (r: Result<()>)
      requires SpeciesLocated(State()) && |c| >= 15
      modifies this`low, this`high
      ensures var m := ModifyParamsOf(old(State()), index, c);
              && r.Ok? == m.Ok?
              && State() == (if m.Ok? then m.value else old(State()))
    {
      ghost var s := State();
      if index !in groupMap {
        return Err(OutOfRange("species without NASA parameters"));
      }
      LocatedAt(s, index);
      var grp, pos := groupMap[index], posInGroupMap[index];
      var lowPoly, highPoly := low[grp - 1][pos], high[grp - 1][pos];
      if c[0] != lowPoly.tmax {
        return Err(CanteraError(" ", "Tmid cannot be changed"));
      }
      WritePairAt(grp - 1, pos, lowPoly.(coeffs := c[1..8]), highPoly.(coeffs := c[8..15]));
      assert State() == s.(low := low, high := high);
      r := Ok(());
    }

    /** Overwrite the pair stored at position pos of 0-based group g. */
    method WritePairAt(g: nat, pos: nat, lo: NasaPoly, hi: NasaPoly)
      requires g < |low| && g < |high| && pos < |low[g]| && pos < |high[g]|
      modifies this`low, this`high
      ensures low == old(low)[g := old(low)[g][pos := lo]]
      ensures high == old(high)[g := old(high)[g][pos := hi]]
    {
      low := low[g := low[g][pos := lo]];
      high := high[g := high[g][pos := hi]];
    }

    /**
     * update_one: evaluate species k alone, writing its entry of out with
     * the low polynomial iff t is below k's own midpoint.
     */
    method UpdateOne(k: nat, t: real, out: array<Option<NasaPoly>>) returns (r: Result<()>)
      requires Valid() && k < out.Length
      modifies out
      ensures r.Ok? <==> k in groupMap
      ensures r.Ok? ==> out[..] == old(out[..])[k := Some(UpdateOneSel(State(), k, t).value)]
      ensures r.Err? ==> out[..] == old(out[..])
    {
      if k !in groupMap {
        return Err(OutOfRange("species without NASA parameters"));
      }
      var grp, pos := groupMap[k], posInGroupMap[k];
      var nlow := low[grp - 1][pos];
      if t < nlow.tmax {
        out[nlow.index] := Some(nlow);
      } else {
        var nhigh := high[grp - 1][pos];
        out[nhigh.index] := Some(nhigh);
      }
      r := Ok(());
    }

    /**
     * update: for each group in turn, evaluate every polynomial of its high
     * list if t is above the group's midpoint, of its low list otherwise.
     */
    method Update(t: real, out: array<Option<NasaPoly>>)
      requires Valid() && IndicesBelow(State(), out.Length)
      modifies out
      ensures out[..] == Apply(old(out[..]), UpdateSel(State(), t, ngroups))
    {
      GroupSelBelow(State(), t, out.Length);
      UpdateGroups(State(), t, out);
    }

    /** minTemp: the common lower limit, or species k's own. */
    function MinTemp(k: Option<nat>): (r: Result<real>)
      reads this
      ensures r.Ok? <==> k.None? || k.value < |tlow|
      ensures k.None? ==> r == Ok(tlowMax)
      ensures Valid() && r.Ok? ==> r.value <= tlowMax
    {
      LimitsAroundCommon(State(), k);
      MinTempOf(State(), k)
    }

    /** maxTemp: the common upper limit, or species k's own. */
    function MaxTemp(k: Option<nat>): (r: Result<real>)
      reads this
      ensures r.Ok? <==> k.None? || k.value < |thigh|
      ensures k.None? ==> r == Ok(thighMin)
      ensures Valid() && r.Ok? ==> thighMin <= r.value
    {
      LimitsAroundCommon(State(), k);
      MaxTempOf(State(), k)
    }

    /** refPressure: one pressure for the whole manager, whatever k. */
    function RefPressure(k: Option<nat>): real
      reads this
    {
      p0
    }

    /** reportType: every species is NASA. */
    function ReportType(k: nat): int {
      NASA
    }

    /** reportParams: the 15-slot array, limits and pressure stored for species k. */
    function ReportParams(k: nat): (r: Result<Params>)
      reads this
      requires Valid()
      ensures r.Ok? <==> k in groupMap
      ensures r.Ok? ==> r.value.kind == ReportType(k) && |r.value.coeffs| == 15
    {
      ReportParamsDefined(State(), k);
      ReportParamsOf(State(), k)
    }
  }
}
