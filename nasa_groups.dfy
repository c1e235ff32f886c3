/**
 * The bookkeeping shared by both NasaThermo variants, as a value: species
 * are grouped by their midpoint temperature truncated to an integer, each
 * group keeps parallel lists of low- and high-range polynomials, and two
 * maps locate a species' pair of polynomials.  The classes in
 * NasaThermoJacobians and NasaThermoScons are specified against the
 * functions here.
 */
module NasaGroups {
  import opened ThermoTypes

  /** Every field of a NasaThermo manager (the scratch vector m_t aside). */
  datatype NasaState = NasaState(
    high: seq<seq<NasaPoly>>,
    low: seq<seq<NasaPoly>>,
    tmidIndex: map<int, nat>,      // m_index: int(tmid) -> 1-based group number
    tmid: seq<real>,
    tlowMax: real,
    thighMin: real,
    tlow: seq<real>,
    thigh: seq<real>,
    p0: real,
    ngroups: int,
    groupMap: map<nat, nat>,       // species -> 1-based group number
    posInGroupMap: map<nat, nat>,  // species -> position within its group
    names: map<nat, string>)

  /** The state of a freshly constructed manager. */
  const Initial := NasaState([], [], map[], [], 0.0, 1.0e30, [], [], -1.0, 0, map[], map[], map[])

  /** The low- and high-range polynomials stored at one position of a group. */
  predicate PairOk(lo: NasaPoly, hi: NasaPoly, groupTmid: real) {
    && lo.index == hi.index
    && lo.tmax == hi.tmin
    && Trunc(lo.tmax) == Trunc(groupTmid)
    && lo.p0 == hi.p0
    && |lo.coeffs| == 7 && |hi.coeffs| == 7
  }

  /** Species k has a group and a position that address existing entries. */
  predicate Located(s: NasaState, k: nat) {
    && k in s.groupMap && k in s.posInGroupMap
    && 1 <= s.groupMap[k] <= |s.low| && |s.low| == |s.high|
    && s.posInGroupMap[k] < |s.low[s.groupMap[k] - 1]|
    && s.posInGroupMap[k] < |s.high[s.groupMap[k] - 1]|
  }

  /** One entry per group in high, low and tmid. */
  predicate Sized(s: NasaState) {
    |s.high| == s.ngroups && |s.low| == s.ngroups && |s.tmid| == s.ngroups
  }

  /** One entry per group in high, low and tmid; parallel, non-empty lists founded by the group's midpoint. */
  predicate Shaped(s: NasaState) {
    && Sized(s)
    && (forall g :: 0 <= g < |s.low| ==> |s.low[g]| == |s.high[g]| && |s.low[g]| > 0 && s.low[g][0].tmax == s.tmid[g])
  }

  /** Every stored pair belongs to one species and meets at the group's midpoint. */
  predicate Paired(s: NasaState)
    requires Shaped(s)
  {
    forall g, j :: 0 <= g < |s.low| && 0 <= j < |s.low[g]| ==> PairOk(s.low[g][j], s.high[g][j], s.tmid[g])
  }

  /** The integer-midpoint map and the groups are in one-to-one correspondence. */
  predicate Indexed(s: NasaState) {
    && (forall m {:trigger s.tmidIndex[m]} :: m in s.tmidIndex ==> 1 <= s.tmidIndex[m] <= |s.tmid| && Trunc(s.tmid[s.tmidIndex[m] - 1]) == m)
    && (forall g {:trigger s.tmid[g]} :: 0 <= g < |s.tmid| ==> Trunc(s.tmid[g]) in s.tmidIndex)
  }

  /** Every recorded species' map entries point at its own polynomials. */
  predicate SpeciesLocated(s: NasaState) {
    forall k :: k in s.groupMap ==> Located(s, k) && s.low[s.groupMap[k] - 1][s.posInGroupMap[k]].index == k
  }

  /** The species limit tables have equal length, reach every species and respect the running limits. */
  predicate Tabled(s: NasaState) {
    && |s.tlow| == |s.thigh|
    && (forall k :: k in s.groupMap ==> k < |s.tlow|)
    && (forall j :: 0 <= j < |s.tlow| ==> s.tlow[j] <= s.tlowMax && s.thighMin <= s.thigh[j])
  }

  /** The manager invariant. */
  predicate Valid(s: NasaState) {
    Shaped(s) && Paired(s) && Indexed(s) && SpeciesLocated(s) && Tabled(s)
  }

  lemma InitialValid()
    ensures Valid(Initial)
  {
  }


  /** The high-range polynomial install builds from c[8..14]. */
  function HighPoly(k: nat, c: seq<real>, maxTemp: real, refPressure: real): NasaPoly
    requires |c| >= 15
  {
    NasaPoly(k, c[0], maxTemp, refPressure, c[8..15])
  }

  /** The low-range polynomial install builds from c[1..7]. */
  function LowPoly(k: nat, c: seq<real>, minTemp: real, refPressure: real): NasaPoly
    requires |c| >= 15
  {
    NasaPoly(k, minTemp, c[0], refPressure, c[1..8])
  }

  /** Open a new, empty group for midpoint tm unless int(tm) already has one. */
  function OpenGroup(s: NasaState, tm: real): NasaState {
    if Trunc(tm) in s.tmidIndex then s
    else s.(high := s.high + [[]], low := s.low + [[]], tmid := s.tmid + [tm],
            tmidIndex := s.tmidIndex[Trunc(tm) := |s.high| + 1], ngroups := s.ngroups + 1)
  }

  /** The group species k joins when installed with midpoint tm. */
  function GroupOf(s: NasaState, tm: real): nat
    requires Valid(s)
  {
    OpenGroup(s, tm).tmidIndex[Trunc(tm)]
  }

  /**
   * Record species lo.index in group g (1-based) behind the entries already
   * there: its name, group and position, and the pair of polynomials.
   */
  function AppendPair(s1: NasaState, g: nat, name: string, lo: NasaPoly, hi: NasaPoly): NasaState
    requires 1 <= g <= |s1.low| && |s1.low| == |s1.high|
  {
    s1.(names := s1.names[lo.index := name],
        groupMap := s1.groupMap[lo.index := g],
        posInGroupMap := s1.posInGroupMap[lo.index := |s1.low[g - 1]|],
        high := s1.high[g - 1 := s1.high[g - 1] + [hi]],
        low := s1.low[g - 1 := s1.low[g - 1] + [lo]])
  }

  /**
   * Update the running limits with species k's range, and grow the species
   * limit tables to reach k (both by the length of the low table) before
   * storing k's own limits.
   */
  function RecordLimits(s2: NasaState, k: nat, minTemp: real, maxTemp: real): NasaState
    requires |s2.tlow| == |s2.thigh|
  {
    var grow := |s2.tlow| < k + 1;
    s2.(tlowMax := if minTemp > s2.tlowMax then minTemp else s2.tlowMax,
        thighMin := if maxTemp < s2.thighMin then maxTemp else s2.thighMin,
        tlow := (if grow then Resized(s2.tlow, k + 1, minTemp) else s2.tlow)[k := minTemp],
        thigh := (if grow then Resized(s2.thigh, k + 1, maxTemp) else s2.thigh)[k := maxTemp])
  }

  /**
   * Everything install does except the reference-pressure step, which the
   * two variants handle differently: find or open the group of int(c[0]),
   * record the species there with its two polynomials, then update the
   * limits.
   */
  function InstallPolys(s: NasaState, name: string, k: nat, c: seq<real>,
                        minTemp: real, maxTemp: real, refPressure: real): (r: NasaState)
    requires Valid(s) && |c| >= 15
    ensures r.p0 == s.p0
  {
    var s1 := OpenGroup(s, c[0]);
    var s2 := AppendPair(s1, s1.tmidIndex[Trunc(c[0])], name, LowPoly(k, c, minTemp, refPressure), HighPoly(k, c, maxTemp, refPressure));
    RecordLimits(s2, k, minTemp, maxTemp)
  }

  /** r holds every polynomial of s at the same group and position. */
  predicate Extends(s: NasaState, r: NasaState) {
    && |s.low| <= |r.low| && |s.high| <= |r.high|
    && (forall g, j :: 0 <= g < |s.low| && 0 <= j < |s.low[g]| ==> j < |r.low[g]| && r.low[g][j] == s.low[g][j])
    && (forall g, j :: 0 <= g < |s.high| && 0 <= j < |s.high[g]| ==> j < |r.high[g]| && r.high[g][j] == s.high[g][j])
  }

  /** The state install produces, field by field, in the two grouping cases. */
  lemma InstallPolysFields(s: NasaState, name: string, k: nat, c: seq<real>,
                           minTemp: real, maxTemp: real, refPressure: real)
    requires Valid(s) && |c| >= 15
    ensures var r := InstallPolys(s, name, k, c, minTemp, maxTemp, refPressure);
            var m, lo, hi := Trunc(c[0]), LowPoly(k, c, minTemp, refPressure), HighPoly(k, c, maxTemp, refPressure);
            && (m in s.tmidIndex ==>
                  var g := s.tmidIndex[m];
                  && 1 <= g <= |s.low|
                  && r.low == s.low[g - 1 := s.low[g - 1] + [lo]] && r.high == s.high[g - 1 := s.high[g - 1] + [hi]]
                  && r.tmid == s.tmid && r.tmidIndex == s.tmidIndex && r.ngroups == s.ngroups
                  && r.groupMap == s.groupMap[k := g] && r.posInGroupMap == s.posInGroupMap[k := |s.low[g - 1]|])
            && (m !in s.tmidIndex ==>
                  && r.low == s.low + [[lo]] && r.high == s.high + [[hi]]
                  && r.tmid == s.tmid + [c[0]] && r.tmidIndex == s.tmidIndex[m := |s.tmid| + 1]
                  && r.ngroups == s.ngroups + 1
                  && r.groupMap == s.groupMap[k := |s.low| + 1] && r.posInGroupMap == s.posInGroupMap[k := 0])
            && r.names == s.names[k := name]
            && r.tlowMax == Max(s.tlowMax, minTemp) && r.thighMin == Min(s.thighMin, maxTemp)
            && r.tlow == (if |s.tlow| < k + 1 then Resized(s.tlow, k + 1, minTemp) else s.tlow)[k := minTemp]
            && r.thigh == (if |s.thigh| < k + 1 then Resized(s.thigh, k + 1, maxTemp) else s.thigh)[k := maxTemp]
  {
    var m := Trunc(c[0]);
    if m !in s.tmidIndex {
      assert [] + [LowPoly(k, c, minTemp, refPressure)] == [LowPoly(k, c, minTemp, refPressure)];
      assert [] + [HighPoly(k, c, maxTemp, refPressure)] == [HighPoly(k, c, maxTemp, refPressure)];
    }
  }

  /** Appending a pair to an existing group with the same integer midpoint keeps the groups well formed. */
  lemma JoinKeepsShape(s: NasaState, r: NasaState, g: nat, lo: NasaPoly, hi: NasaPoly)
    requires Shaped(s) && Paired(s) && g < |s.low|
    requires r.low == s.low[g := s.low[g] + [lo]] && r.high == s.high[g := s.high[g] + [hi]]
    requires r.tmid == s.tmid && r.ngroups == s.ngroups
    requires PairOk(lo, hi, s.tmid[g])
    ensures Shaped(r) && Paired(r) && Extends(s, r)
  {
    forall gg, j | 0 <= gg < |r.low| && 0 <= j < |r.low[gg]|
      ensures PairOk(r.low[gg][j], r.high[gg][j], r.tmid[gg])
    {
      if gg == g && j == |s.low[g]| {
        assert r.low[gg][j] == lo && r.high[gg][j] == hi;
      } else {
        assert r.low[gg][j] == s.low[gg][j] && r.high[gg][j] == s.high[gg][j];
      }
    }
  }

  /** Opening a new group founded by lo keeps the groups well formed. */
  lemma NewKeepsShape(s: NasaState, r: NasaState, lo: NasaPoly, hi: NasaPoly)
    requires Shaped(s) && Paired(s)
    requires r.low == s.low + [[lo]] && r.high == s.high + [[hi]]
    requires r.tmid == s.tmid + [lo.tmax] && r.ngroups == s.ngroups + 1
    requires PairOk(lo, hi, lo.tmax)
    ensures Shaped(r) && Paired(r) && Extends(s, r)
  {
    forall gg, j | 0 <= gg < |r.low| && 0 <= j < |r.low[gg]|
      ensures PairOk(r.low[gg][j], r.high[gg][j], r.tmid[gg])
    {
      if gg < |s.low| {
        assert r.low[gg] == s.low[gg] && r.high[gg] == s.high[gg];
      }
    }
  }

  /** Recording a new integer midpoint for a new last group keeps the correspondence. */
  lemma NewKeepsIndex(s: NasaState, r: NasaState, tm: real)
    requires Indexed(s) && Trunc(tm) !in s.tmidIndex
    requires r.tmid == s.tmid + [tm] && r.tmidIndex == s.tmidIndex[Trunc(tm) := |s.tmid| + 1]
    ensures Indexed(r)
  {
    forall m | m in r.tmidIndex
      ensures 1 <= r.tmidIndex[m] <= |r.tmid| && Trunc(r.tmid[r.tmidIndex[m] - 1]) == m
    {
      if m != Trunc(tm) {
        assert r.tmid[s.tmidIndex[m] - 1] == s.tmid[s.tmidIndex[m] - 1];
      }
    }
  }

  /** A located species' group and position address a stored pair of its own. */
  lemma LocatedAt(s: NasaState, k: nat)
    requires SpeciesLocated(s) && k in s.groupMap
    ensures k in s.posInGroupMap && 1 <= s.groupMap[k] <= |s.low| && |s.low| == |s.high|
    ensures s.posInGroupMap[k] < |s.low[s.groupMap[k] - 1]| && s.posInGroupMap[k] < |s.high[s.groupMap[k] - 1]|
    ensures s.low[s.groupMap[k] - 1][s.posInGroupMap[k]].index == k
  {
    assert Located(s, k);
  }

  /** An extension keeps every stored pair at its group and position. */
  lemma ExtendsAt(s: NasaState, r: NasaState, g: nat, j: nat)
    requires Extends(s, r) && g < |s.low| && g < |s.high| && j < |s.low[g]| && j < |s.high[g]|
    ensures j < |r.low[g]| && r.low[g][j] == s.low[g][j]
    ensures j < |r.high[g]| && r.high[g][j] == s.high[g][j]
  {
    assert s.low[g][j] == s.low[g][j];
    assert s.high[g][j] == s.high[g][j];
  }

  /** Pointing species k at a stored polynomial of its own keeps every species located. */
  lemma RecordKeepsLocated(s: NasaState, r: NasaState, k: nat, g: nat, pos: nat)
    requires SpeciesLocated(s) && Extends(s, r) && |r.low| == |r.high|
    requires r.groupMap == s.groupMap[k := g] && r.posInGroupMap == s.posInGroupMap[k := pos]
    requires 1 <= g <= |r.low| && pos < |r.low[g - 1]| && pos < |r.high[g - 1]|
    requires r.low[g - 1][pos].index == k
    ensures SpeciesLocated(r)
  {
    forall kk | kk in r.groupMap
      ensures Located(r, kk) && r.low[r.groupMap[kk] - 1][r.posInGroupMap[kk]].index == kk
    {
      if kk != k {
        assert Located(s, kk);
        var gk, pk := s.groupMap[kk], s.posInGroupMap[kk];
        assert r.groupMap[kk] == gk && r.posInGroupMap[kk] == pk;
        var g0 := gk - 1;
        assert 0 <= g0 < |s.low| && g0 < |s.high|;
        assert pk < |s.low[g0]| && pk < |s.high[g0]|;
        ExtendsAt(s, r, g0, pk);
      }
    }
  }

  /** Recording species k's limits keeps the limit tables consistent. */
  lemma RecordKeepsTables(s: NasaState, r: NasaState, k: nat, g: nat, minTemp: real, maxTemp: real)
    requires Tabled(s) && r.groupMap == s.groupMap[k := g]
    requires r.tlowMax == Max(s.tlowMax, minTemp) && r.thighMin == Min(s.thighMin, maxTemp)
    requires r.tlow == (if |s.tlow| < k + 1 then Resized(s.tlow, k + 1, minTemp) else s.tlow)[k := minTemp]
    requires r.thigh == (if |s.thigh| < k + 1 then Resized(s.thigh, k + 1, maxTemp) else s.thigh)[k := maxTemp]
    ensures Tabled(r)
  {
  }

  /** install keeps the manager invariant. */
  lemma InstallPolysValid(s: NasaState, name: string, k: nat, c: seq<real>,
                          minTemp: real, maxTemp: real, refPressure: real)
    requires Valid(s) && |c| >= 15
    ensures Valid(InstallPolys(s, name, k, c, minTemp, maxTemp, refPressure))
  {
    var r := InstallPolys(s, name, k, c, minTemp, maxTemp, refPressure);
    var m, lo, hi := Trunc(c[0]), LowPoly(k, c, minTemp, refPressure), HighPoly(k, c, maxTemp, refPressure);
    InstallPolysFields(s, name, k, c, minTemp, maxTemp, refPressure);
    var g, pos;
    if m in s.tmidIndex {
      g := s.tmidIndex[m];
      pos := |s.low[g - 1]|;
      JoinKeepsShape(s, r, g - 1, lo, hi);
      assert Indexed(r);
    } else {
      g, pos := |s.low| + 1, 0;
      NewKeepsShape(s, r, lo, hi);
      NewKeepsIndex(s, r, c[0]);
    }
    RecordKeepsLocated(s, r, k, g, pos);
    RecordKeepsTables(s, r, k, g, minTemp, maxTemp);
  }

  /**
   * Grouping: a new 1-based group is opened exactly when int(c[0]) has not
   * been seen; otherwise the species joins the existing group for it.
   * Either way the species is recorded in the group whose midpoint
   * truncates to int(c[0]), behind the entries already there.
   */
  lemma InstallPolysGroups(s: NasaState, name: string, k: nat, c: seq<real>,
                           minTemp: real, maxTemp: real, refPressure: real)
    requires Valid(s) && |c| >= 15
    ensures var r := InstallPolys(s, name, k, c, minTemp, maxTemp, refPressure);
            && (Trunc(c[0]) !in s.tmidIndex ==>
                  r.ngroups == s.ngroups + 1 && r.tmid == s.tmid + [c[0]] && r.groupMap[k] == r.ngroups)
            && (Trunc(c[0]) in s.tmidIndex ==>
                  r.ngroups == s.ngroups && r.tmid == s.tmid && r.groupMap[k] == s.tmidIndex[Trunc(c[0])])
            && Trunc(r.tmid[r.groupMap[k] - 1]) == Trunc(c[0])
            && r.posInGroupMap[k] == (if Trunc(c[0]) in s.tmidIndex then |s.low[r.groupMap[k] - 1]| else 0)
            && r.low[r.groupMap[k] - 1][r.posInGroupMap[k]] == LowPoly(k, c, minTemp, refPressure)
            && r.high[r.groupMap[k] - 1][r.posInGroupMap[k]] == HighPoly(k, c, maxTemp, refPressure)
  {
  }

  /** Two species whose midpoints truncate to the same integer share a group. */
  lemma SameTruncatedMidpointSameGroup(s: NasaState, n1: string, k1: nat, c1: seq<real>, lo1: real, hi1: real, p1: real,
                                       n2: string, k2: nat, c2: seq<real>, lo2: real, hi2: real, p2: real)
    requires Valid(s) && |c1| >= 15 && |c2| >= 15 && k1 != k2
    requires Trunc(c1[0]) == Trunc(c2[0])
    ensures var s1 := InstallPolys(s, n1, k1, c1, lo1, hi1, p1);
            && Valid(s1)
            && var s2 := InstallPolys(s1, n2, k2, c2, lo2, hi2, p2);
               s2.groupMap[k1] == s2.groupMap[k2] && s2.ngroups == s1.ngroups
  {
    InstallPolysValid(s, n1, k1, c1, lo1, hi1, p1);
  }

  /**
   * reportParams as a value: c[0] is the species' own midpoint (the low
   * polynomial's upper limit), the low coefficients follow at c+1 and the
   * high ones at c+8; minTemp comes from the low polynomial, maxTemp and
   * the reference pressure from the high one.  A stored entry belonging to
   * another species is "confused".  A species never installed has no group
   * (the source would index outside its vectors).
   */
  function ReportParamsOf(s: NasaState, k: nat): (r: Result<Params>)
    requires SpeciesLocated(s)
    ensures r.Ok? ==> k in s.groupMap && r.value.kind == NASA
  {
    if k !in s.groupMap then Err(OutOfRange("species without NASA parameters"))
    else
      var g, pos := s.groupMap[k], s.posInGroupMap[k];
      var lo, hi := s.low[g - 1][pos], s.high[g - 1][pos];
      if lo.index != k || hi.index != k then Err(CanteraError("  ", "confused"))
      else Ok(Params(NASA, [lo.tmax] + lo.coeffs + hi.coeffs, lo.tmin, hi.tmax, hi.p0))
  }

  /**
   * In a valid manager reportParams fails exactly for the species never
   * installed ("confused" cannot happen), and reports a full 15-slot array.
   */
  lemma ReportParamsDefined(s: NasaState, k: nat)
    requires Valid(s)
    ensures ReportParamsOf(s, k).Ok? <==> k in s.groupMap
    ensures ReportParamsOf(s, k).Ok? ==> |ReportParamsOf(s, k).value.coeffs| == 15
  {
    if k in s.groupMap {
      var g, pos := s.groupMap[k] - 1, s.posInGroupMap[k];
      assert PairOk(s.low[g][pos], s.high[g][pos], s.tmid[g]);
    }
  }

  /** reportParams after install returns the array, limits and pressure install was given. */
  lemma InstallThenReport(s: NasaState, name: string, k: nat, c: seq<real>,
                          minTemp: real, maxTemp: real, refPressure: real)
    requires Valid(s) && |c| >= 15
    ensures var r := InstallPolys(s, name, k, c, minTemp, maxTemp, refPressure);
            Valid(r) && ReportParamsOf(r, k) == Ok(Params(NASA, c[..15], minTemp, maxTemp, refPressure))
  {
    var r := InstallPolys(s, name, k, c, minTemp, maxTemp, refPressure);
    InstallPolysValid(s, name, k, c, minTemp, maxTemp, refPressure);
    InstallPolysGroups(s, name, k, c, minTemp, maxTemp, refPressure);
    var lo, hi := r.low[r.groupMap[k] - 1][r.posInGroupMap[k]], r.high[r.groupMap[k] - 1][r.posInGroupMap[k]];
    assert lo == LowPoly(k, c, minTemp, refPressure) && hi == HighPoly(k, c, maxTemp, refPressure);
    assert [lo.tmax] + lo.coeffs + hi.coeffs == c[..15];
  }

  /** The manager-wide pressure plays no part in the invariant. */
  lemma PressureKeepsValid(s: NasaState, x: real)
    requires Valid(s)
    ensures Valid(s.(p0 := x))
  {
    var t := s.(p0 := x);
    assert t.high == s.high && t.low == s.low && t.tmid == s.tmid && t.tmidIndex == s.tmidIndex;
    assert t.groupMap == s.groupMap && t.posInGroupMap == s.posInGroupMap;
    assert t.tlow == s.tlow && t.thigh == s.thigh && t.tlowMax == s.tlowMax && t.thighMin == s.thighMin;
  }

  /** Nor does it play a part in what is reported per species. */
  lemma PressureIsSeparate(s: NasaState, x: real, k: nat)
    requires Valid(s)
    ensures Valid(s.(p0 := x))
    ensures ReportParamsOf(s.(p0 := x), k) == ReportParamsOf(s, k)
    ensures MinTempOf(s.(p0 := x), Some(k)) == MinTempOf(s, Some(k))
    ensures MaxTempOf(s.(p0 := x), Some(k)) == MaxTempOf(s, Some(k))
  {
    PressureKeepsValid(s, x);
  }

  /**
   * In a valid manager a species' own limits lie outside the common range,
   * stated for any query so that callers need not establish Valid first.
   */
  lemma LimitsAroundCommon(s: NasaState, k: Option<nat>)
    ensures Valid(s) && k.Some? && k.value < |s.tlow| ==>
              MinTempOf(s, k).Ok? && MaxTempOf(s, k).Ok? &&
              MinTempOf(s, k).value <= s.tlowMax && s.thighMin <= MaxTempOf(s, k).value
  {
    if Valid(s) && k.Some? && k.value < |s.tlow| {
      SpeciesLimitsWithinCommon(s, k.value);
    }
  }

  /** minTemp(k): the running maximum without an index, species k's own limit with one. */
  function MinTempOf(s: NasaState, k: Option<nat>): Result<real> {
    match k
    case None => Ok(s.tlowMax)
    case Some(i) => if i < |s.tlow| then Ok(s.tlow[i]) else Err(OutOfRange("minTemp species index"))
  }

  /** maxTemp(k): the running minimum without an index, species k's own limit with one. */
  function MaxTempOf(s: NasaState, k: Option<nat>): Result<real> {
    match k
    case None => Ok(s.thighMin)
    case Some(i) => if i < |s.thigh| then Ok(s.thigh[i]) else Err(OutOfRange("maxTemp species index"))
  }

  /** In a valid manager no species' own range is wider than the common range allows. */
  lemma SpeciesLimitsWithinCommon(s: NasaState, i: nat)
    requires Valid(s) && i < |s.tlow|
    ensures MinTempOf(s, Some(i)).value <= MinTempOf(s, None).value
    ensures MaxTempOf(s, None).value <= MaxTempOf(s, Some(i)).value
  {
  }

  /**
   * After install: the common limits are the running max / min, species k
   * reports its own limits, the tables reach k, and other species keep
   * theirs.
   */
  lemma InstallLimits(s: NasaState, name: string, k: nat, c: seq<real>,
                      minTemp: real, maxTemp: real, refPressure: real)
    requires Valid(s) && |c| >= 15
    ensures var r := InstallPolys(s, name, k, c, minTemp, maxTemp, refPressure);
            && MinTempOf(r, None) == Ok(Max(s.tlowMax, minTemp))
            && MaxTempOf(r, None) == Ok(Min(s.thighMin, maxTemp))
            && MinTempOf(r, Some(k)) == Ok(minTemp) && MaxTempOf(r, Some(k)) == Ok(maxTemp)
            && |r.tlow| == (if |s.tlow| < k + 1 then k + 1 else |s.tlow|)
            && (forall j :: 0 <= j < |s.tlow| && j != k ==>
                  MinTempOf(r, Some(j)) == MinTempOf(s, Some(j)) && MaxTempOf(r, Some(j)) == MaxTempOf(s, Some(j)))
  {
  }

  // ---------------------------------------------------------------------
  // Range selection
  // ---------------------------------------------------------------------

  /** Which of a species' two polynomials is evaluated. */
  datatype Range = LowRange | HighRange

  /**
   * update_one: the range used for species k at temperature t; the low
   * range iff t is below the species' own midpoint (its low polynomial's
   * upper limit).
   */
  function UpdateOneRange(s: NasaState, k: nat, t: real): (r: Result<Range>)
    requires Valid(s)
    ensures r.Ok? <==> k in s.groupMap
  {
    if k !in s.groupMap then Err(OutOfRange("species without NASA parameters"))
    else if t < s.low[s.groupMap[k] - 1][s.posInGroupMap[k]].tmax then Ok(LowRange)
    else Ok(HighRange)
  }

  /** update_one: the polynomial evaluated for species k at temperature t. */
  function UpdateOneSel(s: NasaState, k: nat, t: real): (r: Result<NasaPoly>)
    requires Valid(s)
    ensures r.Ok? <==> k in s.groupMap
    ensures r.Ok? ==> r.value.index == k
  {
    var range :- UpdateOneRange(s, k, t);
    var g, pos := s.groupMap[k], s.posInGroupMap[k];
    if range == LowRange then Ok(s.low[g - 1][pos]) else Ok(s.high[g - 1][pos])
  }

  /** update, for group g: the high range iff t is above the group's midpoint. */
  function GroupRange(s: NasaState, g: nat, t: real): Range
    requires Sized(s) && g < |s.tmid|
  {
    if t > s.tmid[g] then HighRange else LowRange
  }

  /** update, for group g: the list of polynomials evaluated. */
  function GroupSel(s: NasaState, g: nat, t: real): seq<NasaPoly>
    requires Sized(s) && g < |s.tmid|
  {
    if GroupRange(s, g, t) == HighRange then s.high[g] else s.low[g]
  }

  /** update: the polynomials evaluated, group by group, for the first n groups. */
  function UpdateSel(s: NasaState, t: real, n: nat): seq<NasaPoly>
    requires Sized(s) && n <= |s.tmid|
  {
    if n == 0 then [] else UpdateSel(s, t, n - 1) + GroupSel(s, n - 1, t)
  }

  /**
   * For the species that founded its group, update and update_one choose
   * the same range at every temperature except the midpoint itself, where
   * update_one takes the high range and update the low one.
   */
  lemma UpdateRangesDisagreeOnlyAtMidpoint(s: NasaState, k: nat, t: real)
    requires Valid(s) && k in s.groupMap && s.posInGroupMap[k] == 0
    ensures var g := s.groupMap[k] - 1;
            && (t != s.tmid[g] ==> UpdateOneRange(s, k, t) == Ok(GroupRange(s, g, t)))
            && (t == s.tmid[g] ==> UpdateOneRange(s, k, t) == Ok(HighRange) && GroupRange(s, g, t) == LowRange)
  {
  }

  /**
   * For any installed species, update_one tests t against the species' own
   * midpoint lt (its low polynomial's upper limit) while update tests it
   * against its group's midpoint tm; both truncate to the same integer.  The
   * two choose different ranges exactly when t lies between them: in
   * [lt, tm] update_one takes the high range and update the low one, in
   * (tm, lt) the other way round.
   */
  lemma UpdateRangesDisagreeBetweenMidpoints(s: NasaState, k: nat, t: real)
    requires Valid(s) && k in s.groupMap
    ensures var g := s.groupMap[k] - 1;
            var lt, tm := s.low[g][s.posInGroupMap[k]].tmax, s.tmid[g];
            && Trunc(lt) == Trunc(tm)
            && (UpdateOneRange(s, k, t) != Ok(GroupRange(s, g, t)) <==> (lt <= t <= tm || tm < t < lt))
            && (lt <= t <= tm ==> UpdateOneRange(s, k, t) == Ok(HighRange) && GroupRange(s, g, t) == LowRange)
            && (tm < t < lt ==> UpdateOneRange(s, k, t) == Ok(LowRange) && GroupRange(s, g, t) == HighRange)
  {
    var g, pos := s.groupMap[k] - 1, s.posInGroupMap[k];
    assert PairOk(s.low[g][pos], s.high[g][pos], s.tmid[g]);
  }

  /** The polynomials of every selected group belong to species below len. */
  lemma GroupSelBelow(s: NasaState, t: real, len: nat)
    requires Valid(s) && IndicesBelow(s, len)
    ensures forall n, j :: 0 <= n < |s.tmid| && 0 <= j < |GroupSel(s, n, t)| ==> GroupSel(s, n, t)[j].index < len
  {
    forall n, j | 0 <= n < |s.tmid| && 0 <= j < |GroupSel(s, n, t)|
      ensures GroupSel(s, n, t)[j].index < len
    {
      assert PairOk(s.low[n][j], s.high[n][j], s.tmid[n]);
    }
  }

  /** Species indices of all stored polynomials are below n (the output arrays' length). */
  predicate IndicesBelow(s: NasaState, n: nat) {
    forall g, j :: 0 <= g < |s.low| && 0 <= j < |s.low[g]| ==> s.low[g][j].index < n
  }

  /**
   * Applying updateProperties for ps in order: each writes the entry of its
   * own species (an index outside out, which the source never produces
   * for arrays of the phase's length, writes nothing).
   */
  function Apply(out: seq<Option<NasaPoly>>, ps: seq<NasaPoly>): (r: seq<Option<NasaPoly>>)
    ensures |r| == |out|
  {
    if ps == [] then out
    else
      var p, before := ps[|ps| - 1], Apply(out, ps[..|ps| - 1]);
      if p.index < |before| then before[p.index := Some(p)] else before
  }

  /** Applying a + b is applying a, then b. */
  lemma {:induction false} ApplyAppend(out: seq<Option<NasaPoly>>, a: seq<NasaPoly>, b: seq<NasaPoly>)
    ensures Apply(out, a + b) == Apply(Apply(out, a), b)
  {
    if b != [] {
      var b' := b[..|b| - 1];
      assert (a + b)[..|a + b| - 1] == a + b';
      ApplyAppend(out, a, b');
    } else {
      assert a + b == a;
    }
  }

  /**
   * The loop over one group's list: call updateProperties on each
   * polynomial in order, writing the entry of its own species.
   */
  method Evaluate(ps: seq<NasaPoly>, out: array<Option<NasaPoly>>)
    requires forall i :: 0 <= i < |ps| ==> ps[i].index < out.Length
    modifies out
    ensures out[..] == Apply(old(out[..]), ps)
  {
    for j := 0 to |ps|
      invariant out[..] == Apply(old(out[..]), ps[..j])
    {
      assert ps[..j + 1][..j] == ps[..j];
      out[ps[j].index] := Some(ps[j]);
    }
    assert ps[..|ps|] == ps;
  }

  /** One more group of update: applying its selection continues the applied prefix. */
  lemma UpdateAppliesGroup(s: NasaState, t: real, n: nat, out0: seq<Option<NasaPoly>>)
    requires Sized(s) && n < |s.tmid|
    ensures Apply(Apply(out0, UpdateSel(s, t, n)), GroupSel(s, n, t)) == Apply(out0, UpdateSel(s, t, n + 1))
  {
    ApplyAppend(out0, UpdateSel(s, t, n), GroupSel(s, n, t));
  }

  /**
   * The loop of update over the groups of s: for each group in turn,
   * evaluate every polynomial of its high list if t is above the group's
   * midpoint, of its low list otherwise.
   */
  method UpdateGroups(s: NasaState, t: real, out: array<Option<NasaPoly>>)
    requires Sized(s)
    requires forall n, j :: 0 <= n < |s.tmid| && 0 <= j < |GroupSel(s, n, t)| ==> GroupSel(s, n, t)[j].index < out.Length
    modifies out
    ensures out[..] == Apply(old(out[..]), UpdateSel(s, t, s.ngroups))
  {
    for i := 0 to s.ngroups
      invariant out[..] == Apply(old(out[..]), UpdateSel(s, t, i))
    {
      UpdateAppliesGroup(s, t, i, old(out[..]));
      var sel := if t > s.tmid[i] then s.high[i] else s.low[i];
      assert sel == GroupSel(s, i, t);
      Evaluate(sel, out);
    }
  }

  /**
   * What update leaves for one species: the entry written by the last
   * selected polynomial of that species, or the old entry if it has none.
   */
  lemma {:induction false} ApplyLastWriteWins(out: seq<Option<NasaPoly>>, ps: seq<NasaPoly>, i: nat)
    requires i < |out|
    ensures (forall j :: 0 <= j < |ps| ==> ps[j].index != i) ==> Apply(out, ps)[i] == out[i]
    ensures forall j :: (0 <= j < |ps| && ps[j].index == i && (forall l :: j < l < |ps| ==> ps[l].index != i))
                        ==> Apply(out, ps)[i] == Some(ps[j])
  {
    if ps != [] {
      var pre := ps[..|ps| - 1];
      ApplyLastWriteWins(out, pre, i);
      forall j | 0 <= j < |ps| && ps[j].index == i && (forall l :: j < l < |ps| ==> ps[l].index != i)
        ensures Apply(out, ps)[i] == Some(ps[j])
      {
        if j < |pre| {
          assert ps[|ps| - 1].index != i;
          assert forall l :: j < l < |pre| ==> pre[l].index != i by {
            forall l | j < l < |pre| ensures pre[l].index != i {
              assert pre[l] == ps[l];
            }
          }
        }
      }
    }
  }
}
