/**
 * The species-thermo factory: it inspects the species XML nodes of a phase,
 * decides which reference-state manager can evaluate all of them, and turns
 * each species' thermo block into the install call for that manager.
 */
module SpeciesThermoFactory {
  import opened ThermoTypes

  // ---------------------------------------------------------------------
  // Manager selection
  // ---------------------------------------------------------------------

  /** The manager classes the factory can create. */
  datatype ManagerKind =
    | NasaThermoMgr
    | ShomateThermoMgr
    | SimpleThermoMgr
    | NasaShomateDuo
    | NasaSimpleDuo
    | ShomateSimpleDuo
    | GeneralSpeciesThermo

  /** The parameterization family one species needs. */
  datatype Family = FNasa | FShomate | FSimple | FOther

  /** The four flags getSpeciesThermoTypes raises (has_nasa, has_shomate, has_simple, has_other). */
  datatype TypeFlags = TypeFlags(hasNasa: bool, hasShomate: bool, hasSimple: bool, hasOther: bool)

  const NoFlags := TypeFlags(false, false, false, false)

  function Bit(b: bool): int { if b then 1 else 0 }

  /** NASA*inasa + SHOMATE*ishomate + SIMPLE*isimple. */
  function FlagSum(f: TypeFlags): int {
    NASA * Bit(f.hasNasa) + SHOMATE * Bit(f.hasShomate) + SIMPLE * Bit(f.hasSimple)
  }

  /** Number of polynomial families (NASA, Shomate, simple) raised in f. */
  function PolyCount(f: TypeFlags): int {
    Bit(f.hasNasa) + Bit(f.hasShomate) + Bit(f.hasSimple)
  }

  /** The polynomial families a manager kind evaluates (General: none in particular). */
  function Covers(m: ManagerKind): (f: TypeFlags) {
    match m
    case NasaThermoMgr => TypeFlags(true, false, false, false)
    case ShomateThermoMgr => TypeFlags(false, true, false, false)
    case SimpleThermoMgr => TypeFlags(false, false, true, false)
    case NasaShomateDuo => TypeFlags(true, true, false, false)
    case NasaSimpleDuo => TypeFlags(true, false, true, false)
    case ShomateSimpleDuo => TypeFlags(false, true, true, false)
    case GeneralSpeciesThermo => TypeFlags(false, false, false, true)
  }

  /**
   * newSpeciesThermo(int type): the manager for a sum of flags.  Accepted
   * are the single flags and the pairwise sums; anything else (0, all three,
   * any other number) is UnknownSpeciesThermo.
   */
  function NewSpeciesThermoByType(code: int): (r: Result<ManagerKind>)
    ensures r.Ok? ==> r.value != GeneralSpeciesThermo && FlagSum(Covers(r.value)) == code
    ensures forall f: TypeFlags :: code == FlagSum(f) ==>
              (r.Ok? <==> 1 <= PolyCount(f) <= 2) && (r.Ok? ==> Covers(r.value) == f.(hasOther := false))
    ensures r.Err? ==> r.error == UnknownSpeciesThermoType("SpeciesThermoFactory::newSpeciesThermo", code)
  {
    if code == NASA then Ok(NasaThermoMgr)
    else if code == SHOMATE then Ok(ShomateThermoMgr)
    else if code == SIMPLE then Ok(SimpleThermoMgr)
    else if code == NASA + SHOMATE then Ok(NasaShomateDuo)
    else if code == NASA + SIMPLE then Ok(NasaSimpleDuo)
    else if code == SHOMATE + SIMPLE then Ok(ShomateSimpleDuo)
    else Err(UnknownSpeciesThermoType("SpeciesThermoFactory::newSpeciesThermo", code))
  }

  /** standardState model "water" or "waterIAPWS": the species needs the general manager. */
  predicate IsWaterModel(sp: XmlNode) {
    HasChild(sp, "standardState") &&
    var mname := Attr(Child(sp, "standardState"), "model");
    mname == "water" || mname == "waterIAPWS"
  }

  /** The species has a thermo node, and that node has a child named name. */
  predicate InThermo(sp: XmlNode, name: string) {
    HasChild(sp, "thermo") && HasChild(Child(sp, "thermo"), name)
  }

  /** The order attribute of the species' poly block. */
  function PolyOrder(sp: XmlNode): string
    requires InThermo(sp, "poly")
  {
    Attr(Child(Child(sp, "thermo"), "poly"), "order")
  }

  /**
   * The family one species node raises in getSpeciesThermoTypes, or the
   * error thrown for it.  Within the thermo node the first test that
   * matches decides: NASA, then Shomate or MinEQ3, then const_cp, then poly
   * (order "1" only); Mu0, NASA9, NASA9MULTITEMP, adsorbate and anything
   * else raise has_other.
   */
  function ClassifySpecies(sp: XmlNode): (r: Result<Family>)
    ensures IsWaterModel(sp) ==> r == Ok(FOther)
    ensures !IsWaterModel(sp) && !HasChild(sp, "thermo") ==>
              r == Err(CanteraError("getSpeciesThermoTypes:", Attr(sp, "name") + " is missing the thermo XML node"))
    ensures r.Err? ==> r.error.CanteraError?
    ensures r == Ok(FNasa) <==> !IsWaterModel(sp) && InThermo(sp, "NASA")
    ensures r == Ok(FShomate) <==>
              !IsWaterModel(sp) && !InThermo(sp, "NASA") && (InThermo(sp, "Shomate") || InThermo(sp, "MinEQ3"))
    ensures r == Ok(FSimple) <==>
              !IsWaterModel(sp) && !InThermo(sp, "NASA") && !InThermo(sp, "Shomate") && !InThermo(sp, "MinEQ3") &&
              (InThermo(sp, "const_cp") || (InThermo(sp, "poly") && PolyOrder(sp) == "1"))
    ensures r == Ok(FOther) <==>
              IsWaterModel(sp) ||
              (HasChild(sp, "thermo") && !InThermo(sp, "NASA") && !InThermo(sp, "Shomate") &&
               !InThermo(sp, "MinEQ3") && !InThermo(sp, "const_cp") && !InThermo(sp, "poly"))
    ensures !IsWaterModel(sp) && HasChild(sp, "thermo") && r.Err? ==>
              !InThermo(sp, "NASA") && !InThermo(sp, "Shomate") && !InThermo(sp, "MinEQ3") &&
              !InThermo(sp, "const_cp") && InThermo(sp, "poly") && PolyOrder(sp) != "1" &&
              r == Err(CanteraError("newSpeciesThermo", "poly with order > 1 not yet supported"))
  {
    if IsWaterModel(sp) then Ok(FOther)
    else if !HasChild(sp, "thermo") then
      Err(CanteraError("getSpeciesThermoTypes:", Attr(sp, "name") + " is missing the thermo XML node"))
    else
      var th := Child(sp, "thermo");
      if HasChild(th, "NASA") then Ok(FNasa)
      else if HasChild(th, "Shomate") then Ok(FShomate)
      else if HasChild(th, "MinEQ3") then Ok(FShomate)
      else if HasChild(th, "const_cp") then Ok(FSimple)
      else if HasChild(th, "poly") then
        if Attr(Child(th, "poly"), "order") == "1" then Ok(FSimple)
        else Err(CanteraError("newSpeciesThermo", "poly with order > 1 not yet supported"))
      else Ok(FOther)
  }

  /** Raise the flag of family fam (flags are only ever set, never cleared). */
  function Raise(f: TypeFlags, fam: Family): TypeFlags {
    match fam
    case FNasa => f.(hasNasa := true)
    case FShomate => f.(hasShomate := true)
    case FSimple => f.(hasSimple := true)
    case FOther => f.(hasOther := true)
  }

  /** Each species' classification, in list order. */
  function Classifications(list: seq<XmlNode>): (cs: seq<Result<Family>>)
    ensures |cs| == |list|
    ensures forall i :: 0 <= i < |list| ==> cs[i] == ClassifySpecies(list[i])
  {
    seq(|list|, i requires 0 <= i < |list| => ClassifySpecies(list[i]))
  }

  /**
   * Folding the classifications in order: flags start lowered, each species
   * raises its family's flag, and the first error stops the scan.
   */
  function Scan(cs: seq<Result<Family>>): Result<TypeFlags>
  {
    if cs == [] then Ok(NoFlags)
    else
      var prev :- Scan(cs[..|cs| - 1]);
      var fam :- cs[|cs| - 1];
      Ok(Raise(prev, fam))
  }

  /** The flags getSpeciesThermoTypes leaves after scanning list, or the error it throws. */
  function SpeciesThermoTypes(list: seq<XmlNode>): Result<TypeFlags>
  {
    Scan(Classifications(list))
  }

  /** Some species of list classifies as fam. */
  predicate Has(list: seq<XmlNode>, fam: Family) {
    Ok(fam) in Classifications(list)
  }

  /** The scan succeeds iff no classification is an error. */
  lemma {:induction false} ScanOk(cs: seq<Result<Family>>)
    ensures Scan(cs).Ok? <==> forall i :: 0 <= i < |cs| ==> cs[i].Ok?
  {
    if cs != [] {
      var pre := cs[..|cs| - 1];
      ScanOk(pre);
      assert forall i :: 0 <= i < |pre| ==> pre[i] == cs[i];
    }
  }

  /** A successful scan raises exactly the flags of the families that occur. */
  lemma {:induction false} ScanIsOr(cs: seq<Result<Family>>)
    requires Scan(cs).Ok?
    ensures Scan(cs).value == TypeFlags(Ok(FNasa) in cs, Ok(FShomate) in cs, Ok(FSimple) in cs, Ok(FOther) in cs)
  {
    if cs != [] {
      var pre, last := cs[..|cs| - 1], cs[|cs| - 1];
      assert cs == pre + [last];
      ScanIsOr(pre);
    }
  }

  /** One more classification: the scan of cs[..n+1] from the scan of cs[..n]. */
  lemma ScanStep(cs: seq<Result<Family>>, n: nat, f: TypeFlags)
    requires n < |cs| && Scan(cs[..n]) == Ok(f)
    ensures Scan(cs[..n + 1]) == if cs[n].Err? then Err(cs[n].error) else Ok(Raise(f, cs[n].value))
  {
    assert cs[..n + 1][..n] == cs[..n];
  }

  /** Once a prefix of the scan fails, the whole scan fails with the same error. */
  lemma {:induction false} ScanFirstError(cs: seq<Result<Family>>, n: nat)
    requires n <= |cs| && Scan(cs[..n]).Err?
    ensures Scan(cs) == Scan(cs[..n])
    decreases |cs| - n
  {
    if n < |cs| {
      var m := |cs| - 1;
      assert cs[..m][..n] == cs[..n];
      if n < m {
        ScanFirstError(cs[..m], n);
      }
    } else {
      assert cs[..n] == cs;
    }
  }

  /** The scan of list succeeds iff every species classifies. */
  lemma SpeciesThermoTypesOk(list: seq<XmlNode>)
    ensures SpeciesThermoTypes(list).Ok? <==> forall i :: 0 <= i < |list| ==> ClassifySpecies(list[i]).Ok?
  {
    ScanOk(Classifications(list));
  }

  /**
   * When the scan of list succeeds each flag is the OR over the species: it
   * is raised iff some species has that family.
   */
  lemma SpeciesThermoTypesIsOr(list: seq<XmlNode>)
    requires SpeciesThermoTypes(list).Ok?
    ensures SpeciesThermoTypes(list).value ==
            TypeFlags(Has(list, FNasa), Has(list, FShomate), Has(list, FSimple), Has(list, FOther))
  {
    ScanIsOr(Classifications(list));
  }

  /** The flags depend only on which species occur, not on their order or repetition. */
  lemma SpeciesThermoTypesOrderIndependent(a: seq<XmlNode>, b: seq<XmlNode>)
    requires forall sp :: sp in a <==> sp in b
    ensures SpeciesThermoTypes(a).Ok? == SpeciesThermoTypes(b).Ok?
    ensures SpeciesThermoTypes(a).Ok? ==> SpeciesThermoTypes(a) == SpeciesThermoTypes(b)
  {
    var ca, cb := Classifications(a), Classifications(b);
    forall c ensures c in ca <==> c in cb {
      if c in ca {
        var i :| 0 <= i < |a| && ca[i] == c;
        assert a[i] in b;
        var j :| 0 <= j < |b| && b[j] == a[i];
        assert cb[j] == c;
      }
      if c in cb {
        var j :| 0 <= j < |b| && cb[j] == c;
        assert b[j] in a;
        var i :| 0 <= i < |a| && a[i] == b[j];
        assert ca[i] == c;
      }
    }
    ScanOk(ca);
    ScanOk(cb);
    assert (forall i :: 0 <= i < |ca| ==> ca[i].Ok?) <==> (forall j :: 0 <= j < |cb| ==> cb[j].Ok?) by {
      if forall i :: 0 <= i < |ca| ==> ca[i].Ok? {
        forall j | 0 <= j < |cb| ensures cb[j].Ok? {
          assert cb[j] in ca;
        }
      }
      if forall j :: 0 <= j < |cb| ==> cb[j].Ok? {
        forall i | 0 <= i < |ca| ensures ca[i].Ok? {
          assert ca[i] in cb;
        }
      }
    }
    if Scan(ca).Ok? {
      ScanIsOr(ca);
      ScanIsOr(cb);
    }
  }

  /** getSpeciesThermoTypes: the loop over the species, raising flags as 0/1 integers. */
  method GetSpeciesThermoTypes(spDataNodeList: seq<XmlNode>) returns (r: Result<TypeFlags>)
    ensures r == SpeciesThermoTypes(spDataNodeList)
  {
    ghost var cs := Classifications(spDataNodeList);
    var hasNasa, hasShomate, hasSimple, hasOther := 0, 0, 0, 0;
    var n := 0;
    while n < |spDataNodeList|
      invariant 0 <= n <= |spDataNodeList|
      invariant 0 <= hasNasa <= 1 && 0 <= hasShomate <= 1 && 0 <= hasSimple <= 1 && 0 <= hasOther <= 1
      invariant Scan(cs[..n]) == Ok(TypeFlags(hasNasa == 1, hasShomate == 1, hasSimple == 1, hasOther == 1))
    {
      var fam := ClassifySpecies(spDataNodeList[n]);
      ScanStep(cs, n, TypeFlags(hasNasa == 1, hasShomate == 1, hasSimple == 1, hasOther == 1));
      if fam.Err? {
        ScanFirstError(cs, n + 1);
        return Err(fam.error);
      }
      match fam.value {
        case FNasa => hasNasa := 1;
        case FShomate => hasShomate := 1;
        case FSimple => hasSimple := 1;
        case FOther => hasOther := 1;
      }
      n := n + 1;
    }
    assert cs[..n] == cs;
    r := Ok(TypeFlags(hasNasa == 1, hasShomate == 1, hasSimple == 1, hasOther == 1));
  }

  /**
   * newSpeciesThermo(list): the general manager as soon as one species needs
   * it; otherwise the manager for the sum of the raised flags.
   */
  method NewSpeciesThermo(spDataNodeList: seq<XmlNode>) returns (r: Result<ManagerKind>)
    ensures var t := SpeciesThermoTypes(spDataNodeList);
            && (t.Err? ==> r == Err(t.error))
            && (r == Ok(GeneralSpeciesThermo) <==> t.Ok? && Has(spDataNodeList, FOther))
            && (r.Ok? && r.value != GeneralSpeciesThermo ==>
                  Covers(r.value) == TypeFlags(Has(spDataNodeList, FNasa), Has(spDataNodeList, FShomate),
                                               Has(spDataNodeList, FSimple), false))
            && (t.Ok? && !Has(spDataNodeList, FOther) ==>
                  (r.Ok? <==> 1 <= PolyCount(t.value) <= 2))
    ensures spDataNodeList == [] ==> r.Err?
  {
    if SpeciesThermoTypes(spDataNodeList).Ok? {
      SpeciesThermoTypesIsOr(spDataNodeList);
    }
    var types := GetSpeciesThermoTypes(spDataNodeList);
    if types.Err? {
      return Err(types.error);
    }
    var f := types.value;
    if f.hasOther {
      return Ok(GeneralSpeciesThermo);
    }
    r := NewSpeciesThermoByType(FlagSum(f));
  }

  /** The lower-case names newSpeciesThermoManager knows, "" (no manager) included. */
  const KnownManagerNames: set<string> :=
    {"nasa", "shomate", "simple", "constant_cp", "nasa_shomate_duo", "nasa_simple_duo",
     "shomate_simple_duo", "general", ""}

  /** The lower-case names that select manager m by name. */
  function ManagerNames(m: ManagerKind): set<string> {
    match m
    case NasaThermoMgr => {"nasa"}
    case ShomateThermoMgr => {"shomate"}
    case SimpleThermoMgr => {"simple", "constant_cp"}
    case NasaShomateDuo => {"nasa_shomate_duo"}
    case NasaSimpleDuo => {"nasa_simple_duo"}
    case ShomateSimpleDuo => {"shomate_simple_duo"}
    case GeneralSpeciesThermo => {"general"}
  }

  /**
   * newSpeciesThermoManager(stype): the manager named by stype, compared
   * case-insensitively; None stands for the null manager returned for "".
   */
  function NewSpeciesThermoManager(stype: string): (r: Result<Option<ManagerKind>>)
    ensures r.Ok? <==> Lower(stype) in KnownManagerNames
    ensures r == Ok(None) <==> stype == ""
    ensures forall m :: Lower(stype) in ManagerNames(m) ==> r == Ok(Some(m))
    ensures r.Ok? && r.value.Some? ==> Lower(stype) in ManagerNames(r.value.value)
    ensures r.Err? ==> r.error == UnknownSpeciesThermo("SpeciesThermoFactory::newSpeciesThermoManager", stype)
  {
    var ltype := Lower(stype);
    if ltype == "nasa" then Ok(Some(NasaThermoMgr))
    else if ltype == "shomate" then Ok(Some(ShomateThermoMgr))
    else if ltype == "simple" || ltype == "constant_cp" then Ok(Some(SimpleThermoMgr))
    else if ltype == "nasa_shomate_duo" then Ok(Some(NasaShomateDuo))
    else if ltype == "nasa_simple_duo" then Ok(Some(NasaSimpleDuo))
    else if ltype == "shomate_simple_duo" then Ok(Some(ShomateSimpleDuo))
    else if ltype == "general" then Ok(Some(GeneralSpeciesThermo))
    else if ltype == "" then Ok(None)
    else Err(UnknownSpeciesThermo("SpeciesThermoFactory::newSpeciesThermoManager", stype))
  }

  /** Two names that differ only in letter case select the same manager. */
  lemma ManagerNameCaseInsensitive(a: string, b: string)
    requires Lower(a) == Lower(b)
    ensures NewSpeciesThermoManager(a).Ok? == NewSpeciesThermoManager(b).Ok?
    ensures NewSpeciesThermoManager(a).Ok? ==> NewSpeciesThermoManager(a) == NewSpeciesThermoManager(b)
  {
  }

  /** The name-based and the flag-based selection agree on every non-general manager. */
  lemma ManagerNameAgreesWithFlags(stype: string)
    requires NewSpeciesThermoManager(stype).Ok?
    requires NewSpeciesThermoManager(stype).value.Some?
    requires NewSpeciesThermoManager(stype).value.value != GeneralSpeciesThermo
    ensures var m := NewSpeciesThermoManager(stype).value.value;
            NewSpeciesThermoByType(FlagSum(Covers(m))) == Ok(m)
  {
  }

  // ---------------------------------------------------------------------
  // Installing one species
  // ---------------------------------------------------------------------

  /** getFloatArray(node.child("floatArray")). */
  function FloatArray(node: XmlNode): (r: Result<seq<real>>)
    ensures r.Ok? <==> HasChild(node, "floatArray")
  {
    if HasChild(node, "floatArray") then Ok(Child(node, "floatArray").values)
    else Err(MissingChild(node.name, "floatArray"))
  }

  /** getFloat(node, name): the number held by the child element name. */
  function GetFloat(node: XmlNode, name: string): (r: Result<real>)
    ensures r.Ok? <==> HasChild(node, name)
  {
    if HasChild(node, name) then Ok(LeafValue(Child(node, name)))
    else Err(MissingChild(node.name, name))
  }

  /** The validity range of a one- or two-block parameterization, ordered low to high. */
  datatype RangePair = RangePair(tmin: real, tmid: real, tmax: real, low: XmlNode, high: XmlNode)

  /**
   * The range test shared by the NASA and Shomate installers.  Without a
   * second block, the (missing) second range starts where the first ends,
   * so the first block is the low one.  With two blocks, f0 is the low one
   * if its Tmax is within 0.01 of f1's Tmin; else f1 is the low one if its
   * Tmax is within 0.01 of f0's Tmin; else the ranges do not join.
   */
  function OrderRanges(f0: XmlNode, f1: Option<XmlNode>): (r: Option<RangePair>)
    ensures f1.None? ==> r.Some? && r.value.low == f0 && r.value.tmid == Num(f0, "Tmax")
    ensures f1.None? ==> r == Some(RangePair(Num(f0, "Tmin"), Num(f0, "Tmax"), Num(f0, "Tmax") + 0.0001, f0, f0))
    ensures f1.Some? && Abs(Num(f0, "Tmax") - Num(f1.value, "Tmin")) < 0.01 ==>
              r == Some(RangePair(Num(f0, "Tmin"), Num(f0, "Tmax"), Num(f1.value, "Tmax"), f0, f1.value))
    ensures f1.Some? && Abs(Num(f0, "Tmax") - Num(f1.value, "Tmin")) >= 0.01 &&
            Abs(Num(f1.value, "Tmax") - Num(f0, "Tmin")) < 0.01 ==>
              r == Some(RangePair(Num(f1.value, "Tmin"), Num(f1.value, "Tmax"), Num(f0, "Tmax"), f1.value, f0))
    ensures r.Some? && f1.Some? ==>
              (r.value.low == f0 && r.value.high == f1.value &&
               Abs(Num(f0, "Tmax") - Num(f1.value, "Tmin")) < 0.01 && r.value.tmid == Num(f0, "Tmax")) ||
              (r.value.low == f1.value && r.value.high == f0 &&
               Abs(Num(f1.value, "Tmax") - Num(f0, "Tmin")) < 0.01 && r.value.tmid == Num(f1.value, "Tmax"))
    ensures r.None? <==> f1.Some? && Abs(Num(f0, "Tmax") - Num(f1.value, "Tmin")) >= 0.01 &&
                         Abs(Num(f1.value, "Tmax") - Num(f0, "Tmin")) >= 0.01
  {
    var tmin0, tmax0 := Num(f0, "Tmin"), Num(f0, "Tmax");
    var tmin1 := if f1.Some? then Num(f1.value, "Tmin") else tmax0;
    var tmax1 := if f1.Some? then Num(f1.value, "Tmax") else tmin1 + 0.0001;
    if Abs(tmax0 - tmin1) < 0.01 then
      Some(RangePair(tmin0, tmax0, tmax1, f0, if f1.Some? then f1.value else f0))
    else if Abs(tmax1 - tmin0) < 0.01 then
      Some(RangePair(tmin1, tmax1, tmax0, f1.value, f0))
    else None
  }

  /**
   * The 15-slot NASA layout: c[0] = tmid, c[1..2] = low[5..6],
   * c[3..7] = low[0..4], c[8..9] = high[5..6], c[10..14] = high[0..4].
   */
  function NasaLayout(tmid: real, c0: seq<real>, c1: seq<real>): (c: seq<real>)
    requires |c0| >= 7 && |c1| >= 7
    ensures |c| == 15 && c[0] == tmid
    ensures c[1] == c0[5] && c[2] == c0[6] && c[8] == c1[5] && c[9] == c1[6]
    ensures forall i :: 0 <= i < 5 ==> c[3 + i] == c0[i] && c[10 + i] == c1[i]
  {
    [tmid, c0[5], c0[6]] + c0[..5] + [c1[5], c1[6]] + c1[..5]
  }

  /**
   * The reordering NasaThermo::install applies to a seven-slot block of the
   * layout before its continuity check: slots 2..6 first, then slots 0, 1.
   */
  function FromNasaOrder(cl: seq<real>): (r: seq<real>)
    requires |cl| == 7
    ensures |r| == 7
  {
    cl[2..7] + [cl[0], cl[1]]
  }

  /** The reordering undoes the layout: each block comes back in its XML order. */
  lemma NasaLayoutRoundTrip(tmid: real, c0: seq<real>, c1: seq<real>)
    requires |c0| >= 7 && |c1| >= 7
    ensures FromNasaOrder(NasaLayout(tmid, c0, c1)[1..8]) == c0[..7]
    ensures FromNasaOrder(NasaLayout(tmid, c0, c1)[8..15]) == c1[..7]
  {
    var c := NasaLayout(tmid, c0, c1);
    var lo, hi := c[1..8], c[8..15];
    assert FromNasaOrder(lo) == lo[2..7] + [lo[0], lo[1]];
    assert lo[2..7] == c0[..5] && lo[0] == c0[5] && lo[1] == c0[6];
    assert c0[..7] == c0[..5] + [c0[5], c0[6]];
    assert FromNasaOrder(hi) == hi[2..7] + [hi[0], hi[1]];
    assert hi[2..7] == c1[..5] && hi[0] == c1[5] && hi[1] == c1[6];
    assert c1[..7] == c1[..5] + [c1[5], c1[6]];
  }

  /**
   * installNasaThermoFromXML: order the one or two NASA blocks, read the
   * seven-coefficient arrays (a single block is copied into the high range
   * too) and build the NASA install call.  The reference pressure is always
   * one atmosphere, whatever P0 or Pref say.
   */
  function InstallNasaThermoFromXml(speciesName: string, k: nat, f0: XmlNode, f1: Option<XmlNode>)
    : (r: Result<InstallCall>)
    ensures r.Ok? ==> r.value.kind == NASA && r.value.name == speciesName && r.value.k == k
    ensures OrderRanges(f0, f1).None? <==>
            r == Err(CanteraError("installNasaThermo", "non-continuous temperature ranges."))
    ensures r.Ok? ==>
              var rp := OrderRanges(f0, f1).value;
              && r.value == InstallCall(speciesName, k, NASA, r.value.coeffs, rp.tmin, rp.tmax, OneAtm)
              && |r.value.coeffs| == 15 && r.value.coeffs[0] == rp.tmid
              && FloatArray(rp.low).Ok? && |FloatArray(rp.low).value| >= 7
              && FromNasaOrder(r.value.coeffs[1..8]) == FloatArray(rp.low).value[..7]
    ensures r.Ok? && f1.Some? ==>
              var high := FloatArray(OrderRanges(f0, f1).value.high);
              high.Ok? && |high.value| >= 7 && FromNasaOrder(r.value.coeffs[8..15]) == high.value[..7]
    ensures r.Ok? && f1.None? ==> r.value.coeffs[8..15] == r.value.coeffs[1..8]
    ensures r.Ok? <==>
              OrderRanges(f0, f1).Some? &&
              (var rp := OrderRanges(f0, f1).value;
               && FloatArray(rp.low).Ok? && |FloatArray(rp.low).value| >= 7
               && (f1.Some? ==> FloatArray(rp.high).Ok? && |FloatArray(rp.high).value| >= 7)
               && (f1.None? ==> |FloatArray(rp.low).value| == 7))
    ensures OrderRanges(f0, f1).Some? ==>
              var rp := OrderRanges(f0, f1).value;
              && (FloatArray(rp.low).Err? ==> r == Err(FloatArray(rp.low).error))
              && (FloatArray(rp.low).Ok? && f1.Some? && FloatArray(rp.high).Err? ==>
                    r == Err(FloatArray(rp.high).error))
  {
    match OrderRanges(f0, f1)
    case None => Err(CanteraError("installNasaThermo", "non-continuous temperature ranges."))
    case Some(rp) =>
      var c0 :- FloatArray(rp.low);
      var c1 :- if f1.Some? then FloatArray(rp.high) else Ok(c0);
      if |c0| < 7 then Err(OutOfRange("low-range NASA coefficients"))
      else if |c1| < 7 then Err(OutOfRange("high-range NASA coefficients"))
      else if f1.None? && |c0| > 7 then Err(OutOfRange("single-range NASA copy"))
      else
        NasaLayoutRoundTrip(rp.tmid, c0, c1);
        Ok(InstallCall(speciesName, k, NASA, NasaLayout(rp.tmid, c0, c1), rp.tmin, rp.tmax, OneAtm))
  }

  /**
   * Two NASA blocks whose ranges join only one way round may be given in
   * either order.
   */
  lemma NasaBlockOrderIrrelevant(name: string, k: nat, f0: XmlNode, f1: XmlNode)
    requires Abs(Num(f0, "Tmax") - Num(f1, "Tmin")) >= 0.01
    ensures InstallNasaThermoFromXml(name, k, f0, Some(f1)) == InstallNasaThermoFromXml(name, k, f1, Some(f0))
  {
  }

  /** The Shomate layout: c[0] = tmid, c[1..7] = low[0..6], c[8..14] = high[0..6]. */
  function ShomateLayout(tmid: real, c0: seq<real>, c1: seq<real>): (c: seq<real>)
    requires |c0| >= 7 && |c1| >= 7
    ensures |c| == 15 && c[0] == tmid && c[1..8] == c0[..7] && c[8..15] == c1[..7]
  {
    [tmid] + c0[..7] + c1[..7]
  }

  /** installShomateThermoFromXML: as for NASA, with the Shomate layout. */
  function InstallShomateThermoFromXml(speciesName: string, k: nat, f0: XmlNode, f1: Option<XmlNode>)
    : (r: Result<InstallCall>)
    ensures r.Ok? ==> r.value.kind == SHOMATE && r.value.name == speciesName && r.value.k == k
    ensures OrderRanges(f0, f1).None? <==>
            r == Err(CanteraError("installShomateThermoFromXML", "non-continuous temperature ranges."))
    ensures r.Ok? ==>
              var rp := OrderRanges(f0, f1).value;
              && r.value == InstallCall(speciesName, k, SHOMATE, r.value.coeffs, rp.tmin, rp.tmax, OneAtm)
              && |r.value.coeffs| == 15 && r.value.coeffs[0] == rp.tmid
              && FloatArray(rp.low).Ok? && |FloatArray(rp.low).value| >= 7
              && r.value.coeffs[1..8] == FloatArray(rp.low).value[..7]
              && (f1.Some? ==> FloatArray(rp.high).Ok? && |FloatArray(rp.high).value| >= 7 &&
                               r.value.coeffs[8..15] == FloatArray(rp.high).value[..7])
              && (f1.None? ==> r.value.coeffs[8..15] == r.value.coeffs[1..8])
    ensures r.Ok? <==>
              OrderRanges(f0, f1).Some? &&
              (var rp := OrderRanges(f0, f1).value;
               && FloatArray(rp.low).Ok? && |FloatArray(rp.low).value| >= 7
               && (f1.Some? ==> FloatArray(rp.high).Ok? && |FloatArray(rp.high).value| >= 7))
    ensures OrderRanges(f0, f1).Some? ==>
              var rp := OrderRanges(f0, f1).value;
              && (FloatArray(rp.low).Err? ==> r == Err(FloatArray(rp.low).error))
              && (FloatArray(rp.low).Ok? && f1.Some? && FloatArray(rp.high).Err? ==>
                    r == Err(FloatArray(rp.high).error))
  {
    match OrderRanges(f0, f1)
    case None => Err(CanteraError("installShomateThermoFromXML", "non-continuous temperature ranges."))
    case Some(rp) =>
      var c0 :- FloatArray(rp.low);
      var c1 :- if f1.Some? then FloatArray(rp.high) else Ok(c0);
      if |c0| < 7 then Err(OutOfRange("low-range Shomate coefficients"))
      else if |c1| < 7 then Err(OutOfRange("high-range Shomate coefficients"))
      else Ok(InstallCall(speciesName, k, SHOMATE, ShomateLayout(rp.tmid, c0, c1), rp.tmin, rp.tmax, OneAtm))
  }

  /**
   * installSimpleThermoFromXML: the constant-cp block gives t0, h0, s0 and
   * cp0; a zero Tmax means "no upper limit" (1e30).
   */
  function InstallSimpleThermoFromXml(speciesName: string, k: nat, f: XmlNode): (r: Result<InstallCall>)
    ensures r.Ok? ==> r.value.kind == SIMPLE && r.value.name == speciesName && r.value.k == k
    ensures r.Ok? <==> HasChild(f, "t0") && HasChild(f, "h0") && HasChild(f, "s0") && HasChild(f, "cp0")
    ensures r.Ok? ==>
              && r.value.kind == SIMPLE && r.value.p0 == OneAtm && |r.value.coeffs| == 4
              && r.value.tmin == Num(f, "Tmin")
              && r.value.tmax == (if Num(f, "Tmax") == 0.0 then 1.0e30 else Num(f, "Tmax"))
              && r.value.coeffs == [LeafValue(Child(f, "t0")), LeafValue(Child(f, "h0")),
                                    LeafValue(Child(f, "s0")), LeafValue(Child(f, "cp0"))]
  {
    var tmin := Num(f, "Tmin");
    var tmax := if Num(f, "Tmax") == 0.0 then 1.0e30 else Num(f, "Tmax");
    var t0 :- GetFloat(f, "t0");
    var h0 :- GetFloat(f, "h0");
    var s0 :- GetFloat(f, "s0");
    var cp0 :- GetFloat(f, "cp0");
    Ok(InstallCall(speciesName, k, SIMPLE, [t0, h0, s0, cp0], tmin, tmax, OneAtm))
  }

  // ---------------------------------------------------------------------
  // NASA9 regions
  // ---------------------------------------------------------------------

  /** One Nasa9Poly1: a nine-coefficient region. */
  datatype Nasa9Region = Nasa9Region(k: nat, tmin: real, tmax: real, pref: real, coeffs: seq<real>)

  /** What install_STIT receives: one region, or a multi-region parameterization. */
  datatype Nasa9Install = SingleRegion(region: Nasa9Region) | MultiRegion(regions: seq<Nasa9Region>)

  /** A thermo child that defines a NASA9 region. */
  predicate IsNasa9Region(f: XmlNode) {
    f.name == "NASA9" && HasChild(f, "floatArray")
  }

  /** The reference pressure of a region: Pref over P0 over the one carried from the previous region. */
  function RegionPref(f: XmlNode, pref: real): real {
    if "Pref" in f.nums then f.nums["Pref"] else if "P0" in f.nums then f.nums["P0"] else pref
  }

  /**
   * The loop of installNasa9ThermoFromXML from position i on, with the
   * reference pressure carried so far and the regions built so far.
   */
  function Nasa9Loop(k: nat, tp: seq<XmlNode>, i: nat, pref: real, acc: seq<Nasa9Region>)
    : Result<seq<Nasa9Region>>
    requires i <= |tp|
    decreases |tp| - i
  {
    if i == |tp| then Ok(acc)
    else if IsNasa9Region(tp[i]) then
      var f := tp[i];
      var p := RegionPref(f, pref);
      var cPoly := Child(f, "floatArray").values;
      if |cPoly| != 9 then Err(CanteraError("installNasa9ThermoFromXML", "Expected 9 coeff polynomial"))
      else Nasa9Loop(k, tp, i + 1, p, acc + [Nasa9Region(k, Num(f, "Tmin"), Num(f, "Tmax"), p, cPoly)])
    else Nasa9Loop(k, tp, i + 1, pref, acc)
  }

  /** The NASA9 region blocks of tp[i..], in order. */
  function RegionBlocks(tp: seq<XmlNode>, i: nat): (bs: seq<XmlNode>)
    requires i <= |tp|
    ensures forall b :: b in bs ==> IsNasa9Region(b)
    decreases |tp| - i
  {
    if i == |tp| then [] else (if IsNasa9Region(tp[i]) then [tp[i]] else []) + RegionBlocks(tp, i + 1)
  }

  /**
   * Region r is the one block b defines for species k: b's Tmin and Tmax,
   * b's nine coefficients, and b's reference pressure, or the one carried
   * from the region before when b gives none.
   */
  predicate RegionFrom(r: Nasa9Region, b: XmlNode, k: nat, carried: real)
    requires IsNasa9Region(b)
  {
    && r.k == k && r.tmin == Num(b, "Tmin") && r.tmax == Num(b, "Tmax")
    && r.pref == RegionPref(b, carried)
    && r.coeffs == Child(b, "floatArray").values
  }

  /** One region per block, in order, the first carrying pref0 and each later one its predecessor's pressure. */
  predicate RegionsFrom(rs: seq<Nasa9Region>, bs: seq<XmlNode>, k: nat, pref0: real)
    requires forall b :: b in bs ==> IsNasa9Region(b)
  {
    && |rs| == |bs|
    && forall j {:trigger bs[j]} :: 0 <= j < |rs| ==> RegionFrom(rs[j], bs[j], k, if j == 0 then pref0 else rs[j - 1].pref)
  }

  /** RegionsFrom grows at the front by one region made from the front block. */
  lemma RegionsFromCons(r: Nasa9Region, rs: seq<Nasa9Region>, b: XmlNode, bs: seq<XmlNode>, k: nat, pref0: real)
    requires IsNasa9Region(b) && forall b' :: b' in bs ==> IsNasa9Region(b')
    requires RegionFrom(r, b, k, pref0) && RegionsFrom(rs, bs, k, r.pref)
    ensures RegionsFrom([r] + rs, [b] + bs, k, pref0)
  {
    var rs', bs' := [r] + rs, [b] + bs;
    forall j | 0 <= j < |rs'|
      ensures RegionFrom(rs'[j], bs'[j], k, if j == 0 then pref0 else rs'[j - 1].pref)
    {
      if j > 0 {
        assert rs'[j] == rs[j - 1] && bs'[j] == bs[j - 1];
        assert rs'[j - 1] == (if j == 1 then r else rs[j - 2]);
      }
    }
  }

  /**
   * The loop succeeds iff every NASA9 region block holds exactly nine
   * coefficients; it then keeps the regions built so far and adds one
   * nine-coefficient region for species k per remaining region block.
   */
  lemma {:induction false} Nasa9LoopSpec(k: nat, tp: seq<XmlNode>, i: nat, pref: real, acc: seq<Nasa9Region>)
    requires i <= |tp|
    ensures Nasa9Loop(k, tp, i, pref, acc).Ok? <==>
            forall j :: i <= j < |tp| && IsNasa9Region(tp[j]) ==> |Child(tp[j], "floatArray").values| == 9
    ensures Nasa9Loop(k, tp, i, pref, acc).Ok? ==>
              var rs := Nasa9Loop(k, tp, i, pref, acc).value;
              && |rs| == |acc| + |RegionBlocks(tp, i)| && rs[..|acc|] == acc
              && forall j :: |acc| <= j < |rs| ==> |rs[j].coeffs| == 9 && rs[j].k == k
    decreases |tp| - i
  {
    if i < |tp| {
      if IsNasa9Region(tp[i]) {
        var f := tp[i];
        var cPoly := Child(f, "floatArray").values;
        if |cPoly| == 9 {
          var acc' := acc + [Nasa9Region(k, Num(f, "Tmin"), Num(f, "Tmax"), RegionPref(f, pref), cPoly)];
          Nasa9LoopSpec(k, tp, i + 1, RegionPref(f, pref), acc');
          if Nasa9Loop(k, tp, i, pref, acc).Ok? {
            var rs := Nasa9Loop(k, tp, i, pref, acc).value;
            assert rs[..|acc'|] == acc';
            assert rs[..|acc|] == acc'[..|acc|];
          }
        }
      } else {
        assert RegionBlocks(tp, i) == RegionBlocks(tp, i + 1);
        Nasa9LoopSpec(k, tp, i + 1, pref, acc);
      }
    }
  }

  /**
   * What each added region holds: the regions the loop adds after acc are,
   * in order, the ones the remaining region blocks define, the reference
   * pressure carried from block to block starting from pref.
   */
  lemma {:induction false} Nasa9LoopRegions(k: nat, tp: seq<XmlNode>, i: nat, pref: real, acc: seq<Nasa9Region>)
    requires i <= |tp|
    ensures Nasa9Loop(k, tp, i, pref, acc).Ok? ==>
              var rs := Nasa9Loop(k, tp, i, pref, acc).value;
              |acc| <= |rs| && RegionsFrom(rs[|acc|..], RegionBlocks(tp, i), k, pref)
    decreases |tp| - i
  {
    if i < |tp| && Nasa9Loop(k, tp, i, pref, acc).Ok? {
      var rs := Nasa9Loop(k, tp, i, pref, acc).value;
      if IsNasa9Region(tp[i]) {
        var f := tp[i];
        var r := Nasa9Region(k, Num(f, "Tmin"), Num(f, "Tmax"), RegionPref(f, pref), Child(f, "floatArray").values);
        var acc' := acc + [r];
        assert rs == Nasa9Loop(k, tp, i + 1, RegionPref(f, pref), acc').value;
        Nasa9LoopSpec(k, tp, i + 1, RegionPref(f, pref), acc');
        Nasa9LoopRegions(k, tp, i + 1, RegionPref(f, pref), acc');
        assert rs[..|acc'|] == acc';
        assert rs[|acc|..] == [r] + rs[|acc'|..];
        assert RegionBlocks(tp, i) == [f] + RegionBlocks(tp, i + 1);
        RegionsFromCons(r, rs[|acc'|..], f, RegionBlocks(tp, i + 1), k, pref);
      } else {
        assert RegionBlocks(tp, i) == RegionBlocks(tp, i + 1);
        Nasa9LoopRegions(k, tp, i + 1, pref, acc);
      }
    }
  }

  /** installNasa9ThermoFromXML as a value: the regions, or the error thrown. */
  function Nasa9FromXml(speciesName: string, k: nat, tp: seq<XmlNode>): (r: Result<Nasa9Install>)
  {
    var regions :- Nasa9Loop(k, tp, 0, OneAtm, []);
    if |regions| == 0 then Err(UnknownSpeciesThermoModel("installThermoForSpecies", speciesName, "  "))
    else if |regions| == 1 then Ok(SingleRegion(regions[0]))
    else Ok(MultiRegion(regions))
  }

  /** The regions an installation holds, in order. */
  function Regions(n9: Nasa9Install): seq<Nasa9Region> {
    match n9
    case SingleRegion(r) => [r]
    case MultiRegion(rs) => rs
  }

  /**
   * The NASA9 installer succeeds iff there is at least one region block and
   * every region block has nine coefficients; one block gives a single
   * region, more give a multi-region parameterization.  Either way region j
   * is the one the j-th block defines, with the reference pressure starting
   * at one atmosphere and carried from block to block.
   */
  lemma Nasa9FromXmlSpec(speciesName: string, k: nat, tp: seq<XmlNode>)
    ensures Nasa9FromXml(speciesName, k, tp).Ok? <==>
            |RegionBlocks(tp, 0)| >= 1 &&
            forall j :: 0 <= j < |tp| && IsNasa9Region(tp[j]) ==> |Child(tp[j], "floatArray").values| == 9
    ensures Nasa9FromXml(speciesName, k, tp).Ok? ==>
              (Nasa9FromXml(speciesName, k, tp).value.SingleRegion? <==> |RegionBlocks(tp, 0)| == 1)
    ensures Nasa9FromXml(speciesName, k, tp).Ok? ==>
              var rs := Regions(Nasa9FromXml(speciesName, k, tp).value);
              && RegionsFrom(rs, RegionBlocks(tp, 0), k, OneAtm)
              && forall j :: 0 <= j < |rs| ==> |rs[j].coeffs| == 9
  {
    Nasa9LoopSpec(k, tp, 0, OneAtm, []);
    Nasa9LoopRegions(k, tp, 0, OneAtm, []);
    if Nasa9Loop(k, tp, 0, OneAtm, []).Ok? {
      var rs := Nasa9Loop(k, tp, 0, OneAtm, []).value;
      assert rs[0..] == rs;
      if |rs| == 1 {
        assert [rs[0]] == rs;
      }
    }
  }

  /** installNasa9ThermoFromXML: the loop over the thermo children. */
  method InstallNasa9ThermoFromXml(speciesName: string, k: nat, tp: seq<XmlNode>) returns (r: Result<Nasa9Install>)
    ensures r == Nasa9FromXml(speciesName, k, tp)
    ensures r.Ok? ==> RegionsFrom(Regions(r.value), RegionBlocks(tp, 0), k, OneAtm)
  {
    var nRegions := 0;
    var regions: seq<Nasa9Region> := [];
    var pref := OneAtm;
    var i := 0;
    while i < |tp|
      invariant 0 <= i <= |tp|
      invariant nRegions == |regions|
      invariant Nasa9Loop(k, tp, 0, OneAtm, []) == Nasa9Loop(k, tp, i, pref, regions)
    {
      var fptr := tp[i];
      if fptr.name == "NASA9" {
        if HasChild(fptr, "floatArray") {
          var tmin := Num(fptr, "Tmin");
          var tmax := Num(fptr, "Tmax");
          if "P0" in fptr.nums {
            pref := fptr.nums["P0"];
          }
          if "Pref" in fptr.nums {
            pref := fptr.nums["Pref"];
          }
          var cPoly := Child(fptr, "floatArray").values;
          if |cPoly| != 9 {
            return Err(CanteraError("installNasa9ThermoFromXML", "Expected 9 coeff polynomial"));
          }
          regions := regions + [Nasa9Region(k, tmin, tmax, pref, cPoly)];
          nRegions := nRegions + 1;
        }
      }
      i := i + 1;
    }
    if nRegions == 0 {
      r := Err(UnknownSpeciesThermoModel("installThermoForSpecies", speciesName, "  "));
    } else if nRegions == 1 {
      r := Ok(SingleRegion(regions[0]));
    } else {
      r := Ok(MultiRegion(regions));
    }
    Nasa9FromXmlSpec(speciesName, k, tp);
  }

  // ---------------------------------------------------------------------
  // installThermoForSpecies
  // ---------------------------------------------------------------------

  /**
   * What installThermoForSpecies hands to the manager: a polynomial install
   * call, NASA9 regions, or a block passed on to the MinEQ3 or Mu0
   * installers (those converters are not part of this model).
   */
  datatype Installation =
    | PolyInstall(call: InstallCall)
    | Nasa9Install(n9: Nasa9Install)
    | MinEQ3Install(node: XmlNode)
    | Mu0Install(node: XmlNode)

  /** The thermo children of a species that has a thermo node. */
  function ThermoChildren(s: XmlNode): seq<XmlNode>
    requires HasChild(s, "thermo")
  {
    Child(s, "thermo").children
  }

  predicate IsMineralEQ3(s: XmlNode) {
    HasChild(s, "thermo") && Attr(Child(s, "thermo"), "model") == "MineralEQ3"
  }

  /** The thermo block names installThermoForSpecies dispatches on. */
  datatype Block = BNasa | BShomate | BConstCp | BMu0 | BNasa9 | BOther

  function BlockOf(f: XmlNode): Block {
    if f.name == "NASA" then BNasa
    else if f.name == "Shomate" then BShomate
    else if f.name == "const_cp" then BConstCp
    else if f.name == "Mu0" then BMu0
    else if f.name == "NASA9" then BNasa9
    else BOther
  }

  /** Properties shared by every polynomial install call built for species name, index k. */
  predicate PolyCallFor(c: InstallCall, name: string, k: nat, b: Block) {
    && c.k == k && c.name == name
    && (c.kind == NASA <==> b == BNasa)
    && (c.kind == SHOMATE <==> b == BShomate)
    && (c.kind == SIMPLE <==> b == BConstCp)
  }

  /** All blocks are of the same kind. */
  predicate SameBlocks(tp: seq<XmlNode>) {
    forall i :: 0 <= i < |tp| ==> BlockOf(tp[i]) == BlockOf(tp[0])
  }

  /** A polynomial install call handed on as an installation, its error unchanged. */
  function AsPoly(c: Result<InstallCall>): Result<Installation> {
    match c
    case Ok(call) => Ok(PolyInstall(call))
    case Err(e) => Err(e)
  }

  /** NASA9 regions handed on as an installation, the error unchanged. */
  function AsNasa9(n: Result<Nasa9Install>): Result<Installation> {
    match n
    case Ok(n9) => Ok(Nasa9Install(n9))
    case Err(e) => Err(e)
  }

  /**
   * When the NASA or Shomate installer accepts its one or two blocks: the
   * ranges join, and each block present holds at least seven coefficients.
   */
  predicate RangesInstall(f0: XmlNode, f1: Option<XmlNode>) {
    && OrderRanges(f0, f1).Some?
    && var rp := OrderRanges(f0, f1).value;
       && FloatArray(rp.low).Ok? && |FloatArray(rp.low).value| >= 7
       && (f1.Some? ==> FloatArray(rp.high).Ok? && |FloatArray(rp.high).value| >= 7)
  }

  /**
   * When the installer of a NASA, Shomate or constant-cp parameterization
   * accepts its blocks; a single NASA block must hold exactly seven
   * coefficients, and a constant-cp block needs t0, h0, s0 and cp0.
   */
  predicate PolyInstalls(b: Block, f0: XmlNode, f1: Option<XmlNode>) {
    match b
    case BNasa =>
      RangesInstall(f0, f1) && (f1.None? ==> |FloatArray(OrderRanges(f0, f1).value.low).value| == 7)
    case BShomate => RangesInstall(f0, f1)
    case BConstCp => f1.None? && HasChild(f0, "t0") && HasChild(f0, "h0") && HasChild(f0, "s0") && HasChild(f0, "cp0")
    case _ => false
  }

  /** When the NASA9 installer accepts tp: some region block, and nine coefficients in each. */
  predicate Nasa9Installs(tp: seq<XmlNode>) {
    && |RegionBlocks(tp, 0)| >= 1
    && forall j :: 0 <= j < |tp| && IsNasa9Region(tp[j]) ==> |Child(tp[j], "floatArray").values| == 9
  }

  /** The block lists handed to the NASA9 installer: one NASA9 block, a NASA9 pair, or more than two blocks led by NASA9. */
  predicate Nasa9Dispatch(tp: seq<XmlNode>) {
    && |tp| > 0 && BlockOf(tp[0]) == BNasa9
    && (|tp| == 2 ==> BlockOf(tp[1]) == BNasa9)
  }

  /** The block lists of a species without a MineralEQ3 model that installThermoForSpecies accepts. */
  predicate Accepted(tp: seq<XmlNode>) {
    if Nasa9Dispatch(tp) then Nasa9Installs(tp)
    else if |tp| == 1 then
      BlockOf(tp[0]) == BMu0 || PolyInstalls(BlockOf(tp[0]), tp[0], None)
    else if |tp| == 2 then
      && BlockOf(tp[0]) == BlockOf(tp[1]) && BlockOf(tp[0]) in {BNasa, BShomate}
      && PolyInstalls(BlockOf(tp[0]), tp[0], Some(tp[1]))
    else false
  }

  /** The one-block case of installThermoForSpecies, dispatched on the block's name. */
  function SingleBlock(k: nat, name: string, tp: seq<XmlNode>): (r: Result<Installation>)
    requires |tp| == 1
    ensures r.Ok? <==> Accepted(tp)
    ensures r.Ok? ==> !r.value.MinEQ3Install?
    ensures r.Ok? && r.value.PolyInstall? ==> PolyCallFor(r.value.call, name, k, BlockOf(tp[0])) && SameBlocks(tp)
    ensures r.Ok? && r.value.Nasa9Install? ==> BlockOf(tp[0]) == BNasa9
    ensures BlockOf(tp[0]) == BNasa ==> r == AsPoly(InstallNasaThermoFromXml(name, k, tp[0], None))
    ensures BlockOf(tp[0]) == BShomate ==> r == AsPoly(InstallShomateThermoFromXml(name, k, tp[0], None))
    ensures BlockOf(tp[0]) == BConstCp ==> r == AsPoly(InstallSimpleThermoFromXml(name, k, tp[0]))
    ensures BlockOf(tp[0]) == BMu0 ==> r == Ok(Mu0Install(tp[0]))
    ensures BlockOf(tp[0]) == BNasa9 ==> r == AsNasa9(Nasa9FromXml(name, k, tp))
    ensures BlockOf(tp[0]) == BOther ==> r == Err(UnknownSpeciesThermoModel("installThermoForSpecies", name, tp[0].name))
  {
    var f := tp[0];
    Nasa9FromXmlSpec(name, k, tp);
    match BlockOf(f)
    case BShomate =>
      var c :- InstallShomateThermoFromXml(name, k, f, None); Ok(PolyInstall(c))
    case BConstCp =>
      var c :- InstallSimpleThermoFromXml(name, k, f); Ok(PolyInstall(c))
    case BNasa =>
      var c :- InstallNasaThermoFromXml(name, k, f, None); Ok(PolyInstall(c))
    case BMu0 => Ok(Mu0Install(f))
    case BNasa9 =>
      var n9 :- Nasa9FromXml(name, k, tp); Ok(Nasa9Install(n9))
    case BOther => Err(UnknownSpeciesThermoModel("installThermoForSpecies", name, f.name))
  }

  /** The two-block case: two NASA, two Shomate or two NASA9 blocks. */
  function BlockPair(k: nat, name: string, tp: seq<XmlNode>): (r: Result<Installation>)
    requires |tp| == 2
    ensures r.Ok? <==> Accepted(tp)
    ensures r.Ok? ==> BlockOf(tp[0]) == BlockOf(tp[1]) && BlockOf(tp[0]) in {BNasa, BShomate, BNasa9}
    ensures r.Ok? ==> !r.value.MinEQ3Install? && !r.value.Mu0Install?
    ensures r.Ok? && r.value.PolyInstall? ==> PolyCallFor(r.value.call, name, k, BlockOf(tp[0])) && SameBlocks(tp)
    ensures r.Ok? && r.value.Nasa9Install? ==> BlockOf(tp[0]) == BNasa9
    ensures BlockOf(tp[0]) == BlockOf(tp[1]) == BNasa ==>
              r == AsPoly(InstallNasaThermoFromXml(name, k, tp[0], Some(tp[1])))
    ensures BlockOf(tp[0]) == BlockOf(tp[1]) == BShomate ==>
              r == AsPoly(InstallShomateThermoFromXml(name, k, tp[0], Some(tp[1])))
    ensures BlockOf(tp[0]) == BlockOf(tp[1]) == BNasa9 ==> r == AsNasa9(Nasa9FromXml(name, k, tp))
    ensures BlockOf(tp[0]) != BlockOf(tp[1]) || BlockOf(tp[0]) !in {BNasa, BShomate, BNasa9} ==>
              r == Err(UnknownSpeciesThermoModel("installThermoForSpecies", name, tp[0].name + " and " + tp[1].name))
  {
    var f0, f1 := tp[0], tp[1];
    var b0, b1 := BlockOf(f0), BlockOf(f1);
    Nasa9FromXmlSpec(name, k, tp);
    if b0 == b1 && (b0 == BNasa || b0 == BShomate) then
      var c :- PolyPair(k, name, f0, f1); Ok(PolyInstall(c))
    else if b0 == BNasa9 && b1 == BNasa9 then
      var n9 :- Nasa9FromXml(name, k, tp); Ok(Nasa9Install(n9))
    else Err(UnknownSpeciesThermoModel("installThermoForSpecies", name, f0.name + " and " + f1.name))
  }

  /**
   * Two NASA blocks or two Shomate blocks, installed as one two-range
   * parameterization: accepted iff the ranges join and both blocks hold
   * seven coefficients, spanning the joined range with its midpoint first.
   */
  function PolyPair(k: nat, name: string, f0: XmlNode, f1: XmlNode): (r: Result<InstallCall>)
    requires BlockOf(f0) == BlockOf(f1) && (BlockOf(f0) == BNasa || BlockOf(f0) == BShomate)
    ensures r.Ok? <==> RangesInstall(f0, Some(f1))
    ensures r.Ok? ==> PolyCallFor(r.value, name, k, BlockOf(f0))
    ensures r.Ok? ==>
              var rp := OrderRanges(f0, Some(f1)).value;
              && r.value.tmin == rp.tmin && r.value.tmax == rp.tmax && r.value.p0 == OneAtm
              && |r.value.coeffs| == 15 && r.value.coeffs[0] == rp.tmid
    ensures OrderRanges(f0, Some(f1)).None? ==> r.Err?
  {
    if BlockOf(f0) == BNasa then InstallNasaThermoFromXml(name, k, f0, Some(f1))
    else InstallShomateThermoFromXml(name, k, f0, Some(f1))
  }

  /** A MineralEQ3 thermo model: its first block must be MinEQ3. */
  function MineralBlock(tp: seq<XmlNode>): (r: Result<Installation>)
    ensures r.Ok? <==> |tp| > 0 && tp[0].name == "MinEQ3"
    ensures r.Ok? ==> r == Ok(MinEQ3Install(tp[0]))
  {
    if |tp| == 0 then Err(OutOfRange("thermo children of a MineralEQ3 species"))
    else if tp[0].name != "MinEQ3" then
      Err(CanteraError("SpeciesThermoFactory::installThermoForSpecies", "confused: expedted MinEQ3"))
    else Ok(MinEQ3Install(tp[0]))
  }

  /** No block, or more than two: only a NASA9 list starting with a NASA9 block is accepted. */
  function MultiBlock(k: nat, name: string, tp: seq<XmlNode>): (r: Result<Installation>)
    requires |tp| != 1 && |tp| != 2
    ensures r.Ok? <==> Accepted(tp)
    ensures r.Ok? ==> |tp| > 2 && BlockOf(tp[0]) == BNasa9 && r.value.Nasa9Install?
    ensures Nasa9Dispatch(tp) ==> r == AsNasa9(Nasa9FromXml(name, k, tp))
    ensures !Nasa9Dispatch(tp) ==> r == Err(UnknownSpeciesThermoModel("installThermoForSpecies", name, "multiple"))
  {
    Nasa9FromXmlSpec(name, k, tp);
    if |tp| > 2 && BlockOf(tp[0]) == BNasa9 then
      var n9 :- Nasa9FromXml(name, k, tp); Ok(Nasa9Install(n9))
    else Err(UnknownSpeciesThermoModel("installThermoForSpecies", name, "multiple"))
  }

  /**
   * installThermoForSpecies as a value.  A MineralEQ3 thermo model must
   * start with a MinEQ3 block.  Otherwise one child is dispatched by its
   * name; two children must be a NASA, Shomate or NASA9 pair; more than two
   * must start with NASA9; none is an error.  The species is accepted
   * exactly when the installer it is dispatched to accepts its blocks.
   */
  function ThermoForSpecies(k: nat, s: XmlNode): (r: Result<Installation>)
    ensures !HasChild(s, "thermo") ==>
              r == Err(UnknownSpeciesThermoModel("installThermoForSpecies", Attr(s, "name"), "<nonexistent>"))
    ensures r.Ok? ==> HasChild(s, "thermo") && |ThermoChildren(s)| >= 1
    ensures IsMineralEQ3(s) ==> (r.Ok? <==> |ThermoChildren(s)| > 0 && ThermoChildren(s)[0].name == "MinEQ3")
    ensures HasChild(s, "thermo") && !IsMineralEQ3(s) ==> (r.Ok? <==> Accepted(ThermoChildren(s)))
    ensures HasChild(s, "thermo") && !IsMineralEQ3(s) ==>
              var tp, name := ThermoChildren(s), Attr(s, "name");
              && (Nasa9Dispatch(tp) ==> r == AsNasa9(Nasa9FromXml(name, k, tp)))
              && (|tp| == 1 && BlockOf(tp[0]) == BNasa ==> r == AsPoly(InstallNasaThermoFromXml(name, k, tp[0], None)))
              && (|tp| == 1 && BlockOf(tp[0]) == BShomate ==> r == AsPoly(InstallShomateThermoFromXml(name, k, tp[0], None)))
              && (|tp| == 1 && BlockOf(tp[0]) == BConstCp ==> r == AsPoly(InstallSimpleThermoFromXml(name, k, tp[0])))
              && (|tp| == 1 && BlockOf(tp[0]) == BMu0 ==> r == Ok(Mu0Install(tp[0])))
              && (|tp| == 1 && BlockOf(tp[0]) == BOther ==>
                    r == Err(UnknownSpeciesThermoModel("installThermoForSpecies", name, tp[0].name)))
              && (|tp| == 2 && (BlockOf(tp[0]) != BlockOf(tp[1]) || BlockOf(tp[0]) !in {BNasa, BShomate, BNasa9}) ==>
                    r == Err(UnknownSpeciesThermoModel("installThermoForSpecies", name, tp[0].name + " and " + tp[1].name)))
              && (|tp| == 2 && BlockOf(tp[0]) == BlockOf(tp[1]) == BNasa ==>
                    r == AsPoly(InstallNasaThermoFromXml(name, k, tp[0], Some(tp[1]))))
              && (|tp| == 2 && BlockOf(tp[0]) == BlockOf(tp[1]) == BShomate ==>
                    r == AsPoly(InstallShomateThermoFromXml(name, k, tp[0], Some(tp[1]))))
              && ((|tp| == 0 || |tp| > 2) && !Nasa9Dispatch(tp) ==>
                    r == Err(UnknownSpeciesThermoModel("installThermoForSpecies", name, "multiple")))
    ensures r.Ok? && !IsMineralEQ3(s) && |ThermoChildren(s)| == 2 ==>
              var tp := ThermoChildren(s);
              BlockOf(tp[0]) == BlockOf(tp[1]) && BlockOf(tp[0]) in {BNasa, BShomate, BNasa9}
    ensures r.Ok? && r.value.PolyInstall? ==>
              && !IsMineralEQ3(s) && |ThermoChildren(s)| <= 2
              && SameBlocks(ThermoChildren(s))
              && PolyCallFor(r.value.call, Attr(s, "name"), k, BlockOf(ThermoChildren(s)[0]))
    ensures r.Ok? && r.value.MinEQ3Install? <==> r.Ok? && IsMineralEQ3(s)
    ensures r.Ok? && r.value.Nasa9Install? ==> BlockOf(ThermoChildren(s)[0]) == BNasa9
  {
    if !HasChild(s, "thermo") then
      Err(UnknownSpeciesThermoModel("installThermoForSpecies", Attr(s, "name"), "<nonexistent>"))
    else
      var thermo := Child(s, "thermo");
      var tp := thermo.children;
      var nc := |tp|;
      var name := Attr(s, "name");
      if Attr(thermo, "model") == "MineralEQ3" then MineralBlock(tp)
      else if nc == 1 then SingleBlock(k, name, tp)
      else if nc == 2 then BlockPair(k, name, tp)
      else MultiBlock(k, name, tp)
  }

  /** installThermoForSpecies: the dispatch, running the NASA9 loop where it is needed. */
  method InstallThermoForSpecies(k: nat, s: XmlNode) returns (r: Result<Installation>)
    ensures r == ThermoForSpecies(k, s)
  {
    if !HasChild(s, "thermo") {
      return Err(UnknownSpeciesThermoModel("installThermoForSpecies", Attr(s, "name"), "<nonexistent>"));
    }
    var thermo := Child(s, "thermo");
    var tp := thermo.children;
    var nc := |tp|;
    var name := Attr(s, "name");
    if Attr(thermo, "model") == "MineralEQ3" {
      r := MineralBlock(tp);
      return;
    }
    if Nasa9Dispatch(tp) {
      var n9 := InstallNasa9ThermoFromXml(name, k, tp);
      r := AsNasa9(n9);
    } else if nc == 1 {
      r := SingleBlock(k, name, tp);
    } else if nc == 2 {
      r := BlockPair(k, name, tp);
    } else {
      r := MultiBlock(k, name, tp);
    }
  }

  /** The family of a NASA, Shomate or constant-cp block. */
  function BlockFamily(b: Block): Family {
    match b
    case BNasa => FNasa
    case BShomate => FShomate
    case BConstCp => FSimple
    case _ => FOther
  }

  /**
   * A species whose thermo blocks are all NASA, all Shomate or all
   * constant-cp is classified in that family.
   */
  lemma UniformBlocksClassify(s: XmlNode)
    requires !IsWaterModel(s) && HasChild(s, "thermo") && |ThermoChildren(s)| > 0
    requires SameBlocks(ThermoChildren(s))
    requires BlockOf(ThermoChildren(s)[0]) in {BNasa, BShomate, BConstCp}
    ensures ClassifySpecies(s) == Ok(BlockFamily(BlockOf(ThermoChildren(s)[0])))
  {
    var th := Child(s, "thermo");
    var tp := th.children;
    var b := BlockOf(tp[0]);
    if b == BNasa {
      assert tp[0].name == "NASA";
    } else if b == BShomate {
      forall i | 0 <= i < |tp| ensures tp[i].name == "Shomate" {
        assert BlockOf(tp[i]) == b;
      }
      assert tp[0].name == "Shomate";
    } else {
      forall i | 0 <= i < |tp| ensures tp[i].name == "const_cp" {
        assert BlockOf(tp[i]) == b;
      }
      assert tp[0].name == "const_cp";
    }
  }

  /**
   * A species the installer hands a NASA, Shomate or constant-cp call to
   * is classified in the same family by the manager selection (unless its
   * standard state is water, which selects the general manager anyway).
   */
  lemma InstallAgreesWithSelection(k: nat, s: XmlNode)
    requires ThermoForSpecies(k, s).Ok? && ThermoForSpecies(k, s).value.PolyInstall?
    requires !IsWaterModel(s)
    ensures var kind := ThermoForSpecies(k, s).value.call.kind;
            && (kind == NASA ==> ClassifySpecies(s) == Ok(FNasa))
            && (kind == SHOMATE ==> ClassifySpecies(s) == Ok(FShomate))
            && (kind == SIMPLE ==> ClassifySpecies(s) == Ok(FSimple))
  {
    var kind := ThermoForSpecies(k, s).value.call.kind;
    if kind == NASA || kind == SHOMATE || kind == SIMPLE {
      UniformBlocksClassify(s);
    }
  }
}
