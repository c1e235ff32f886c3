# Cantera thermo bookkeeping, Array2D and small stateful classes, in Dafny

This project models the parts of Cantera whose behaviour is bookkeeping and
dispatch rather than floating-point numerics, and proves what that code
promises:

- **The species-thermo factory** (`SpeciesThermoFactory.cpp`). It classifies
  the species XML nodes of a phase into NASA / Shomate / simple / other
  families and picks the reference-state manager from the flags or from a
  manager name. It orders one or two temperature ranges, lays the
  coefficients out in the 15-slot NASA and Shomate arrays, reads NASA9
  regions, and dispatches each species' thermo block to the right installer.
- **The NasaThermo grouping manager**, in its two variants:
  - the jacobians branch, where a reference-pressure mismatch throws;
  - the scons branch, where it only warns, and which adds modifyParams and
    operator=.
  
  Species are grouped by their midpoint temperature truncated to an
  integer. Each group keeps parallel low/high polynomial lists. Two maps
  locate each species' pair, and running temperature limits are kept for
  the whole manager.
- **SpeciesThermoDuo** (`SpeciesThermoMgr.h`). It routes each species to
  one of two sub-managers by type, records the type per species, and
  combines the two sub-managers' temperature limits.
- **Array2D** (`Array.h`): a column-major 2-D buffer whose entry (i, j) sits
  at flat index nRows*j + i.
- **Small stateful pieces**:
  - OneDim's inline accessors and option setters;
  - Sim1D's solution buffer;
  - the FlowDevice base class;
  - `VCS_SOLVE::vcs_rearrange`;
  - the unit factors of `cantera_types.h`.

## Modelling choices

**Value-level specifications and classes**
- The NASA managers are classes with the source's fields. A `NasaState`
  value gathers those fields, and the functions in `NasaGroups` over that
  value are the specification. Each class method's `ensures` ties its new
  state to those functions, and the lemmas prove what the source promises
  about them.
- The NASA polynomial is an opaque record (species index, tmin, tmax, p0,
  coefficients). Evaluating it is not modelled: an output slot records
  which polynomial was applied to it.
- The duo's two sub-managers are held by value in the source. They are
  modelled as `SubThermo` values. Each records its flag, the parameters
  installed per species, its running limits and its own reference
  pressure. It also records whether its install throws when a later
  species' pressure differs by more than 0.1 Pa, as the NasaThermo of the
  jacobians branch does (NasaThermo.h:219-229), or only stores the newest
  pressure. Such a throw comes after the species is stored, and the duo
  passes it on without recording the species' type.

**XML, flags and errors**
- XML nodes are a datatype. Numeric attributes are already numbers; a
  missing one reads as 0.0.
- `XML_Node::child(name)` is not part of this model. `ThermoTypes.Child`
  takes it to return the first child with that name, and `hasChild` to
  hold iff there is one.
- The flag values NASA, SHOMATE and SIMPLE are 4, 8 and 16. They are
  defined in a header that is not part of this model; only the fact that
  their subset sums are distinct matters.
- Errors the source throws are `Err` values of a `Result`.
- Several reads in the source fall outside a vector. The model reports
  each of these as `Err(OutOfRange(..))`:
  - a species never installed, in reportParams, update_one or modifyParams;
  - a MineralEQ3 species with no thermo children;
  - a single NASA block with more than seven coefficients;
  - float arrays shorter than seven.

**Installers and foreign collaborators**
- The factory's `install*FromXML` functions are modelled as functions. Each
  returns the install call it would make (`InstallCall`), instead of
  calling into the polymorphic manager.
- `NasaThermo.Install` accepts the same arguments. The round trip from
  install to reportParams is proved on the manager side.
- `vcs_switch_pos` is not part of this model. It is modelled by its effect
  on the species map, which is a swap of two entries.
- `OneDim::eval` is not part of this model either. Sim1D's eval takes it as
  a function parameter.

**Observers without a row of their own**
- Some members only read a field or defer to a specification function,
  so they carry no contract and get no row. What they return is stated
  by the rows named here.
- NasaThermo's refPressure and reportType (the constant NASA): the rows
  for StrictInstallPressure, WarnInstallStores and NasaThermo.ReportParams.
- The duo's refPressure: the row for InstallRoutes.
- The value-level functions InstallOf, ReportTypeOf, ReportParamsOf,
  MinTempOf, MaxTempOf and UpdateOf in SpeciesThermoMgr, and MinTempOf and
  MaxTempOf in NasaGroups: the rows for InstallRoutes, InstallThenReport,
  ReportDefined, CommonRange, UpdateFollowsType, InstallLimits and
  SpeciesLimitsWithinCommon, and the class observers above.
- OneDim's nDomains, domain, start, size, left, right, nVars, loc,
  bandwidth, points and rdt read the container's fields. steady() is
  characterised by the rows for OneDim.Transient and OneDim.SetSteadyMode.
- FlowDevice's type() reads the device type; the constructor row states
  its value. in() and out() read the upstream and downstream reactors; the
  row for FlowDevice.Ready states when both are set.
- Sim1D's solution() is characterised by the rows for Sim1D.SetSolution
  and Sim1D.Eval.

**Where the code and its documentation differ, the model follows the code**
- Array.h:29-35 documents the flat index of entry (i, j) as
  `i + (n-1) * j`. value() at Array.h:251-253 uses `nRows*j + i`, and so
  does the model.
- appendColumn's documentation and its body disagree; see Findings.

## Model

| member | source | states |
|---|---|---|
| SpeciesThermoFactory.NewSpeciesThermoByType | cantera18/branches/Revision_1.8.0/Cantera/src/thermo/SpeciesThermoFactory.cpp:201-219 | for any flag combination whose NASA/SHOMATE/SIMPLE sum is the code, a manager is returned iff one or two families are raised, and it covers exactly those families; 0, all three or any other number throw UnknownSpeciesThermo |
| SpeciesThermoFactory.ClassifySpecies | cantera18/branches/Revision_1.8.0/Cantera/src/thermo/SpeciesThermoFactory.cpp:74-113 | the whole priority chain, one if-and-only-if per outcome: a water / waterIAPWS standard state gives the general family before anything else; otherwise a missing thermo node throws "missing the thermo XML node"; a NASA child gives NASA; failing that a Shomate or MinEQ3 child gives Shomate; failing that const_cp, or poly of order "1", gives simple; a poly of any other order throws "poly with order > 1 not yet supported"; a thermo node with none of these children gives the general family |
| SpeciesThermoFactory.Classifications | cantera18/branches/Revision_1.8.0/Cantera/src/thermo/SpeciesThermoFactory.cpp:72-113 | one classification per species, in list order |
| SpeciesThermoFactory.ScanOk | cantera18/branches/Revision_1.8.0/Cantera/src/thermo/SpeciesThermoFactory.cpp:72-115 | the scan over the species succeeds iff no species' classification throws |
| SpeciesThermoFactory.ScanIsOr | cantera18/branches/Revision_1.8.0/Cantera/src/thermo/SpeciesThermoFactory.cpp:81-109 | flags are only ever raised: a successful scan raises exactly the families that occur |
| SpeciesThermoFactory.ScanStep | cantera18/branches/Revision_1.8.0/Cantera/src/thermo/SpeciesThermoFactory.cpp:72-115 | one more species either raises its family's flag or ends the scan with its error |
| SpeciesThermoFactory.ScanFirstError | cantera18/branches/Revision_1.8.0/Cantera/src/thermo/SpeciesThermoFactory.cpp:110-113 | the first species that throws decides the error of the whole scan |
| SpeciesThermoFactory.SpeciesThermoTypesOk | cantera18/branches/Revision_1.8.0/Cantera/src/thermo/SpeciesThermoFactory.cpp:68-115 | getSpeciesThermoTypes succeeds iff every species classifies |
| SpeciesThermoFactory.SpeciesThermoTypesIsOr | cantera18/branches/Revision_1.8.0/Cantera/src/thermo/SpeciesThermoFactory.cpp:68-115 | each returned flag is raised iff some species of the list has that family |
| SpeciesThermoFactory.SpeciesThermoTypesOrderIndependent | cantera18/branches/Revision_1.8.0/Cantera/src/thermo/SpeciesThermoFactory.cpp:68-115 | lists holding the same species, in any order or repetition, give the same flags or both fail |
| SpeciesThermoFactory.GetSpeciesThermoTypes | cantera18/branches/Revision_1.8.0/Cantera/src/thermo/SpeciesThermoFactory.cpp:68-115 | the loop over the species returns the flags of the specification scan, or the error of the first species that throws |
| SpeciesThermoFactory.NewSpeciesThermo | cantera18/branches/Revision_1.8.0/Cantera/src/thermo/SpeciesThermoFactory.cpp:164-178 | a scan error propagates; the general manager is chosen iff some species needs it; otherwise the manager covers exactly the families present and exists iff one or two are present; an empty list throws |
| SpeciesThermoFactory.NewSpeciesThermoManager | cantera18/branches/Revision_1.8.0/Cantera/src/thermo/SpeciesThermoFactory.cpp:222-245 | a manager is returned iff the lower-cased name is one of the listed names, and it is the manager whose name list holds it ("nasa", "shomate", "simple" or "constant_cp", the three duos, "general"); the null manager iff the name is empty; any other name throws UnknownSpeciesThermo with that name |
| SpeciesThermoFactory.ManagerNameCaseInsensitive | cantera18/branches/Revision_1.8.0/Cantera/src/thermo/SpeciesThermoFactory.cpp:223 | names that differ only in letter case select the same manager |
| SpeciesThermoFactory.ManagerNameAgreesWithFlags | cantera18/branches/Revision_1.8.0/Cantera/src/thermo/SpeciesThermoFactory.cpp:201-245 | every non-general manager selected by name is also the one selected by the sum of the flags it covers |
| SpeciesThermoFactory.FloatArray | cantera18/branches/Revision_1.8.0/Cantera/src/thermo/SpeciesThermoFactory.cpp:366-368 | the coefficient array is read iff the block has a floatArray child |
| SpeciesThermoFactory.GetFloat | cantera18/branches/Revision_1.8.0/Cantera/src/thermo/SpeciesThermoFactory.cpp:642-645 | a named value is read iff the block has a child of that name |
| SpeciesThermoFactory.OrderRanges | cantera18/branches/Revision_1.8.0/Cantera/src/thermo/SpeciesThermoFactory.cpp:329-362 | a single block is the low and the high range, over [Tmin, Tmax + 0.0001] with tmid = Tmax; with two blocks f0 is tested first: if its Tmax is within 0.01 of f1's Tmin it is the low range, over [f0.Tmin, f1.Tmax] with tmid = f0.Tmax, even when the other join also holds; otherwise, if f1's Tmax is within 0.01 of f0's Tmin, f1 is the low range, over [f1.Tmin, f0.Tmax]; the ranges fail to join iff neither holds |
| SpeciesThermoFactory.NasaLayout | cantera18/branches/Revision_1.8.0/Cantera/src/thermo/SpeciesThermoFactory.cpp:366-374 | the 15-slot NASA array: tmid, then low[5..6], low[0..4], then high[5..6], high[0..4] |
| SpeciesThermoFactory.NasaLayoutRoundTrip | cantera18/branches/Revision_1.8.0/Cantera/src/thermo/SpeciesThermoFactory.cpp:366-374 | reordering each seven-slot half of the layout gives back the block's coefficients in their XML order |
| SpeciesThermoFactory.InstallNasaThermoFromXml | cantera18/branches/Revision_1.8.0/Cantera/src/thermo/SpeciesThermoFactory.cpp:303-376 | throws "non-continuous temperature ranges" exactly when the ranges do not join; otherwise succeeds iff the low block (and the high block, when there are two) has a floatArray of at least seven values, a single block exactly seven; a missing low floatArray, then a missing high one, is the error; on success installs NASA at one atmosphere over [tmin, tmax] of the ordered ranges, with tmid first and each half holding its block's coefficients; a single block is copied into the high half |
| SpeciesThermoFactory.NasaBlockOrderIrrelevant | cantera18/branches/Revision_1.8.0/Cantera/src/thermo/SpeciesThermoFactory.cpp:338-362 | two NASA blocks whose ranges join only one way round install the same parameterization in either order |
| SpeciesThermoFactory.ShomateLayout | cantera18/branches/Revision_1.8.0/Cantera/src/thermo/SpeciesThermoFactory.cpp:619-623 | the 15-slot Shomate array: tmid, the low block, the high block |
| SpeciesThermoFactory.InstallShomateThermoFromXml | cantera18/branches/Revision_1.8.0/Cantera/src/thermo/SpeciesThermoFactory.cpp:578-625 | same range rule and error as NASA; succeeds iff the low block (and the high block, when there are two) has a floatArray of at least seven values; both floatArrays are read before any length is used, so a missing one is reported first; on success installs SHOMATE at one atmosphere with the low block in c[1..7] and the high one (or a copy of the low one) in c[8..14] |
| SpeciesThermoFactory.InstallSimpleThermoFromXml | cantera18/branches/Revision_1.8.0/Cantera/src/thermo/SpeciesThermoFactory.cpp:633-648 | succeeds iff t0, h0, s0 and cp0 are all present; installs exactly those four at one atmosphere, with a zero Tmax read as 1e30 |
| SpeciesThermoFactory.Nasa9LoopSpec | cantera18/branches/Revision_1.8.0/Cantera/src/thermo/SpeciesThermoFactory.cpp:662-695 | the region loop succeeds iff every NASA9 block has exactly nine coefficients; it keeps the regions built so far and adds one nine-coefficient region for species k per NASA9 block |
| SpeciesThermoFactory.Nasa9LoopRegions | cantera18/branches/Revision_1.8.0/Cantera/src/thermo/SpeciesThermoFactory.cpp:662-695 | the regions the loop adds are, in block order, the ones the NASA9 blocks define: that block's Tmin, Tmax and coefficients, and a reference pressure taken from Pref, else P0, else carried from the region before |
| SpeciesThermoFactory.Nasa9FromXmlSpec | cantera18/branches/Revision_1.8.0/Cantera/src/thermo/SpeciesThermoFactory.cpp:656-705 | NASA9 installation succeeds iff there is at least one region block and every region block has nine coefficients; one block gives a single-region install, more a multi-region install; region j is the one block j defines, with the pressure starting at one atmosphere and carried from block to block |
| SpeciesThermoFactory.InstallNasa9ThermoFromXml | cantera18/branches/Revision_1.8.0/Cantera/src/thermo/SpeciesThermoFactory.cpp:656-705 | the loop over the thermo children returns what the region specification does, and each region it installs is the one its block defines (Tmin, Tmax, coefficients, and the Pref/P0 or carried pressure) |
| SpeciesThermoFactory.SingleBlock | cantera18/branches/Revision_1.8.0/Cantera/src/thermo/SpeciesThermoFactory.cpp:780-811 | one block is dispatched by name: NASA, Shomate and const_cp give exactly what their installers give, Mu0 is passed on, NASA9 gives the region loop's result, any other name throws UnknownSpeciesThermoModel with that name; it succeeds iff the chosen installer accepts the block |
| SpeciesThermoFactory.BlockPair | cantera18/branches/Revision_1.8.0/Cantera/src/thermo/SpeciesThermoFactory.cpp:812-827 | a NASA or Shomate pair gives exactly what that installer gives for the two blocks, a NASA9 pair the region loop's result, and any other pair throws with both names; it succeeds iff the chosen installer accepts the pair |
| SpeciesThermoFactory.PolyPair | cantera18/branches/Revision_1.8.0/Cantera/src/thermo/SpeciesThermoFactory.cpp:812-821 | a NASA or Shomate pair is installed iff the ranges join and both blocks hold seven coefficients; the call has that kind, the joined tmin and tmax, one atmosphere and 15 coefficients led by the midpoint |
| SpeciesThermoFactory.MineralBlock | cantera18/branches/Revision_1.8.0/Cantera/src/thermo/SpeciesThermoFactory.cpp:773-779 | a MineralEQ3 model is accepted iff its first block is MinEQ3, and that block is passed on |
| SpeciesThermoFactory.MultiBlock | cantera18/branches/Revision_1.8.0/Cantera/src/thermo/SpeciesThermoFactory.cpp:828-841 | more than two blocks led by NASA9 give the region loop's result; zero blocks, or more than two led by anything else, throw "multiple" |
| SpeciesThermoFactory.ThermoForSpecies | cantera18/branches/Revision_1.8.0/Cantera/src/thermo/SpeciesThermoFactory.cpp:758-843 | no thermo node throws "<nonexistent>"; a MineralEQ3 model succeeds iff its first block is MinEQ3; otherwise the species is accepted iff the installer its blocks select accepts them, and each case (single NASA, Shomate, const_cp, Mu0 or unknown block; NASA or Shomate pair; NASA9 lists; unmatched pair; zero or too many blocks) gives that installer's result or the source's error |
| SpeciesThermoFactory.InstallThermoForSpecies | cantera18/branches/Revision_1.8.0/Cantera/src/thermo/SpeciesThermoFactory.cpp:758-843 | the method dispatches on the MineralEQ3 model and then on the number of blocks, running the NASA9 region loop where the blocks are NASA9; it returns what the dispatch specification ThermoForSpecies does |
| SpeciesThermoFactory.UniformBlocksClassify | cantera18/branches/Revision_1.8.0/Cantera/src/thermo/SpeciesThermoFactory.cpp:84-99 | a species whose blocks are all NASA, all Shomate or all const_cp is classified in that family |
| SpeciesThermoFactory.InstallAgreesWithSelection | cantera18/branches/Revision_1.8.0/Cantera/src/thermo/SpeciesThermoFactory.cpp:758-843 | the install call's kind agrees with the family the manager selection gave the same species, so the selected manager accepts it |
| NasaGroups.InitialValid | cantera/branches/jacobians/src/thermo/NasaThermo.h:60-68 | a new manager satisfies the invariant: groups sized by the group count, parallel non-empty lists, pairs meeting at the midpoint, midpoint index and groups in one-to-one correspondence, every species located, limit tables consistent |
| NasaGroups.InstallPolys | cantera/branches/jacobians/src/thermo/NasaThermo.h:167-218 | the grouping part of install leaves the reference pressure alone |
| NasaGroups.InstallPolysFields | cantera/branches/jacobians/src/thermo/NasaThermo.h:167-218 | install changes every field as stated, in the two cases: a new group for an unseen int(c[0]), or one more pair appended to the existing group; names, running max/min and the limit tables grown to k+1 |
| NasaGroups.JoinKeepsShape | cantera/branches/jacobians/src/thermo/NasaThermo.h:194-195 | appending one low and one high entry to an existing group keeps the lists parallel and every stored polynomial in place |
| NasaGroups.NewKeepsShape | cantera/branches/jacobians/src/thermo/NasaThermo.h:172-181 | opening a group appends to m_high, m_low and m_tmid and bumps m_ngroups, keeping them in step |
| NasaGroups.NewKeepsIndex | cantera/branches/jacobians/src/thermo/NasaThermo.h:172-181 | recording a new truncated midpoint for a new last group keeps the midpoint index one-to-one with the groups |
| NasaGroups.RecordKeepsLocated | cantera/branches/jacobians/src/thermo/NasaThermo.h:183-195 | pointing the species at its just-pushed pair keeps every species' maps pointing at its own polynomials |
| NasaGroups.RecordKeepsTables | cantera/branches/jacobians/src/thermo/NasaThermo.h:206-218 | growing and writing the limit tables keeps them consistent with the running limits |
| NasaGroups.InstallPolysValid | cantera/branches/jacobians/src/thermo/NasaThermo.h:167-218 | install preserves the manager invariant |
| NasaGroups.InstallPolysGroups | cantera/branches/jacobians/src/thermo/NasaThermo.h:172-195 | a new 1-based group is created iff int(c[0]) is unseen, otherwise the existing one is reused; the species' group/position then locate exactly the pair just built from c |
| NasaGroups.SameTruncatedMidpointSameGroup | cantera18/branches/scons/Cantera/src/thermo/NasaThermo.h:158-170 | two species whose midpoints truncate to the same integer end up in the same group, and the second install opens no group |
| NasaGroups.ReportParamsOf | cantera/branches/jacobians/src/thermo/NasaThermo.h:404-437 | a report is made only for an installed species, and it is of NASA type |
| NasaGroups.ReportParamsDefined | cantera/branches/jacobians/src/thermo/NasaThermo.h:404-437 | in a valid manager reportParams succeeds iff the species was installed, so "confused" cannot happen, and it fills all 15 slots |
| NasaGroups.InstallThenReport | cantera/branches/jacobians/src/thermo/NasaThermo.h:167-218 | after install, reportParams gives back the 15 coefficients, limits and pressure that were installed |
| NasaGroups.PressureKeepsValid | cantera/branches/jacobians/src/thermo/NasaThermo.h:219-229 | the reference-pressure step cannot break the invariant |
| NasaGroups.PressureIsSeparate | cantera/branches/jacobians/src/thermo/NasaThermo.h:219-229 | changing the manager pressure changes no per-species report and no per-species limit |
| NasaGroups.SpeciesLimitsWithinCommon | cantera/branches/jacobians/src/thermo/NasaThermo.h:333-359 | no species' own range is wider than the common one: its minTemp is at most the common minTemp and its maxTemp at least the common maxTemp |
| NasaGroups.InstallLimits | cantera/branches/jacobians/src/thermo/NasaThermo.h:206-218 | after install the common limits are the running max of minTemp and min of maxTemp; species k reports its own limits; the tables reach k; other species keep theirs |
| NasaGroups.UpdateOneRange | cantera/branches/jacobians/src/thermo/NasaThermo.h:255-278 | update_one picks a range exactly for installed species |
| NasaGroups.UpdateOneSel | cantera/branches/jacobians/src/thermo/NasaThermo.h:255-278 | update_one evaluates a polynomial exactly for installed species, and it is that species' own |
| NasaGroups.UpdateRangesDisagreeOnlyAtMidpoint | cantera/branches/jacobians/src/thermo/NasaThermo.h:255-321 | for a group's founding species, update_one and update choose the same range except at t == tmid, where update_one takes the high range and update the low one |
| NasaGroups.UpdateRangesDisagreeBetweenMidpoints | cantera/branches/jacobians/src/thermo/NasaThermo.h:255-321 | for every installed species, its own midpoint and its group's truncate to the same integer, and update_one and update choose different ranges exactly when t lies between the two: high against low on [own, group], low against high on (group, own) |
| NasaGroups.GroupSelBelow | cantera/branches/jacobians/src/thermo/NasaThermo.h:309-319 | every polynomial update evaluates writes inside the output arrays when all species indices are below their length |
| NasaGroups.ApplyAppend | cantera/branches/jacobians/src/thermo/NasaThermo.h:309-319 | evaluating two lists one after the other is evaluating their concatenation |
| NasaGroups.Evaluate | cantera/branches/jacobians/src/thermo/NasaThermo.h:314-319 | the loop over one group's list writes each polynomial into its own species' slot, in order |
| NasaGroups.UpdateAppliesGroup | cantera/branches/jacobians/src/thermo/NasaThermo.h:309-319 | one more group continues the evaluation of the groups before it |
| NasaGroups.UpdateGroups | cantera/branches/jacobians/src/thermo/NasaThermo.h:295-321 | the loop over the groups evaluates, in group order, the high list of each group whose midpoint t exceeds and the low list of every other |
| NasaGroups.ApplyLastWriteWins | cantera/branches/jacobians/src/thermo/NasaThermo.h:309-319 | after update, a species' slot holds the last selected polynomial of that species, and a species with none keeps its old slot |
| NasaThermoJacobians.CheckPressure | cantera/branches/jacobians/src/thermo/NasaThermo.h:219-229 | only m_p0 changes; on success it is the new pressure; a throw leaves the old, already-set pressure |
| NasaThermoJacobians.StrictInstallStores | cantera/branches/jacobians/src/thermo/NasaThermo.h:167-230 | whether or not install throws, the invariant holds and reportParams and minTemp/maxTemp give back what was installed: nothing is rolled back |
| NasaThermoJacobians.StrictInstallPressure | cantera/branches/jacobians/src/thermo/NasaThermo.h:219-229 | install throws iff a pressure is already set and the new one differs by more than 0.1; on success the newest pressure is kept; on a throw the state is everything install stored, with the old pressure |
| NasaThermoJacobians.NasaThermo.constructor | cantera/branches/jacobians/src/thermo/NasaThermo.h:60-68 | an empty valid manager: no groups, common range [0, 1e30], p0 = -1 |
| NasaThermoJacobians.NasaThermo.Install | cantera/branches/jacobians/src/thermo/NasaThermo.h:167-230 | the new state and the throw are those of the specification install, and the invariant is kept |
| NasaThermoJacobians.NasaThermo.CheckRefPressure | cantera/branches/jacobians/src/thermo/NasaThermo.h:219-229 | the pressure step on the fields is the specification's |
| NasaThermoJacobians.NasaThermo.Store | cantera/branches/jacobians/src/thermo/NasaThermo.h:169-218 | the grouping part of install on the fields is the specification's, and the invariant is kept |
| NasaThermoJacobians.NasaThermo.OpenGroupFor | cantera/branches/jacobians/src/thermo/NasaThermo.h:172-181 | finds or opens the 1-based group of int(tm) |
| NasaThermoJacobians.NasaThermo.AppendPairAt | cantera/branches/jacobians/src/thermo/NasaThermo.h:183-195 | records the species' name, group and position and pushes its pair |
| NasaThermoJacobians.NasaThermo.UpdateLimits | cantera/branches/jacobians/src/thermo/NasaThermo.h:206-218 | updates the running limits and the limit tables |
| NasaThermoJacobians.NasaThermo.UpdateOne | cantera/branches/jacobians/src/thermo/NasaThermo.h:255-278 | succeeds iff the species was installed, then writes only its own slot with its low polynomial iff t is below its midpoint; on failure nothing is written |
| NasaThermoJacobians.NasaThermo.Update | cantera/branches/jacobians/src/thermo/NasaThermo.h:295-321 | the output is the evaluation of every group's selected list, in group order |
| NasaThermoJacobians.NasaThermo.MinTemp | cantera/branches/jacobians/src/thermo/NasaThermo.h:333-340 | answers for the whole manager or for an installed index; the whole-manager answer is the running maximum of the installed minima, and in a valid manager no species' own minimum exceeds it |
| NasaThermoJacobians.NasaThermo.MaxTemp | cantera/branches/jacobians/src/thermo/NasaThermo.h:352-359 | answers for the whole manager or for an installed index; the whole-manager answer is the running minimum of the installed maxima, and in a valid manager no species' own maximum is below it |
| NasaThermoJacobians.NasaThermo.ReportParams | cantera/branches/jacobians/src/thermo/NasaThermo.h:404-437 | succeeds iff the species was installed, and then reports NASA, the type reportType gives, with all 15 coefficients |
| NasaThermoScons.WarnInstallStores | cantera18/branches/scons/Cantera/src/thermo/NasaThermo.h:152-213 | install never fails: it keeps the invariant, stores the newest pressure, and reportParams and minTemp/maxTemp give back what was installed |
| NasaThermoScons.VariantsDifferOnlyInPressure | cantera18/branches/scons/Cantera/src/thermo/NasaThermo.h:203-212 | the two branches store the same state iff the strict install does not throw, and otherwise differ only in the reference pressure |
| NasaThermoScons.ModifyParamsOf | cantera18/branches/scons/Cantera/src/thermo/NasaThermo.h:431-450 | modifyParams succeeds iff the species is installed and c[0] equals its stored midpoint |
| NasaThermoScons.SameShapeShaped | cantera18/branches/scons/Cantera/src/thermo/NasaThermo.h:444-447 | replacing coefficients keeps the groups' shape |
| NasaThermoScons.SameShapePaired | cantera18/branches/scons/Cantera/src/thermo/NasaThermo.h:444-447 | replacing coefficients seven for seven keeps every pair well formed |
| NasaThermoScons.SameShapeLocated | cantera18/branches/scons/Cantera/src/thermo/NasaThermo.h:444-447 | replacing coefficients keeps every species located |
| NasaThermoScons.SameShapeValid | cantera18/branches/scons/Cantera/src/thermo/NasaThermo.h:444-447 | replacing coefficients keeps the manager invariant |
| NasaThermoScons.ModifyParamsShape | cantera18/branches/scons/Cantera/src/thermo/NasaThermo.h:431-450 | a successful modifyParams only replaces coefficients |
| NasaThermoScons.ModifyParamsValid | cantera18/branches/scons/Cantera/src/thermo/NasaThermo.h:431-450 | modifyParams keeps the manager invariant |
| NasaThermoScons.ModifyParamsLocated | cantera18/branches/scons/Cantera/src/thermo/NasaThermo.h:431-450 | modifyParams moves no species: both maps are unchanged |
| NasaThermoScons.ModifiedEntry | cantera18/branches/scons/Cantera/src/thermo/NasaThermo.h:434-447 | only the species' own low and high entries get the new coefficients (c+1 and c+8); every other entry is unchanged |
| NasaThermoScons.ModifyThenReport | cantera18/branches/scons/Cantera/src/thermo/NasaThermo.h:431-450 | after a successful modifyParams, reportParams returns the new 15 values with the range and pressure the species had before |
| NasaThermoScons.ModifyLeavesOthers | cantera18/branches/scons/Cantera/src/thermo/NasaThermo.h:431-450 | modifyParams on one species leaves every other species' report unchanged |
| NasaThermoScons.NasaThermo.constructor | cantera18/branches/scons/Cantera/src/thermo/NasaThermo.h:60-68 | an empty valid manager: no groups, common range [0, 1e30], p0 = -1 |
| NasaThermoScons.NasaThermo.Assign | cantera18/branches/scons/Cantera/src/thermo/NasaThermo.h:88-110 | every field becomes the right-hand side's, which self-assignment also satisfies by changing nothing |
| NasaThermoScons.NasaThermo.SetState | cantera18/branches/scons/Cantera/src/thermo/NasaThermo.h:95-108 | all fields are overwritten with the given state |
| NasaThermoScons.NasaThermo.SetGroups | cantera18/branches/scons/Cantera/src/thermo/NasaThermo.h:95-98 | the group tables are copied |
| NasaThermoScons.NasaThermo.SetLimits | cantera18/branches/scons/Cantera/src/thermo/NasaThermo.h:99-103 | the temperature limits and reference pressure are copied |
| NasaThermoScons.NasaThermo.SetSpecies | cantera18/branches/scons/Cantera/src/thermo/NasaThermo.h:105-107 | the species maps are copied |
| NasaThermoScons.NasaThermo.Install | cantera18/branches/scons/Cantera/src/thermo/NasaThermo.h:152-213 | the new state is the specification's warn-only install, and the invariant is kept |
| NasaThermoScons.NasaThermo.Store | cantera18/branches/scons/Cantera/src/thermo/NasaThermo.h:155-202 | the grouping part of install on the fields is the specification's, and the invariant is kept |
| NasaThermoScons.NasaThermo.OpenGroupFor | cantera18/branches/scons/Cantera/src/thermo/NasaThermo.h:158-167 | finds or opens the 1-based group of int(tm) |
| NasaThermoScons.NasaThermo.AppendPairAt | cantera18/branches/scons/Cantera/src/thermo/NasaThermo.h:169-184 | records the species' name, group and position and pushes its pair |
| NasaThermoScons.NasaThermo.UpdateLimits | cantera18/branches/scons/Cantera/src/thermo/NasaThermo.h:195-202 | updates the running limits and the limit tables |
| NasaThermoScons.NasaThermo.ModifyParams | cantera18/branches/scons/Cantera/src/thermo/NasaThermo.h:431-450 | succeeds iff the specification does, and then leaves its state; a failure changes nothing; the invariant is kept |
| NasaThermoScons.NasaThermo.ReplaceCoeffs | cantera18/branches/scons/Cantera/src/thermo/NasaThermo.h:431-450 | the same, needing of the invariant only that every species is located |
| NasaThermoScons.NasaThermo.WritePairAt | cantera18/branches/scons/Cantera/src/thermo/NasaThermo.h:444-447 | only the pair at the given group and position is overwritten |
| NasaThermoScons.NasaThermo.UpdateOne | cantera18/branches/scons/Cantera/src/thermo/NasaThermo.h:238-261 | succeeds iff the species was installed, then writes only its own slot with its low polynomial iff t is below its midpoint; on failure nothing is written |
| NasaThermoScons.NasaThermo.Update | cantera18/branches/scons/Cantera/src/thermo/NasaThermo.h:278-304 | the output is the evaluation of every group's selected list, in group order |
| NasaThermoScons.NasaThermo.MinTemp | cantera18/branches/scons/Cantera/src/thermo/NasaThermo.h:316-321 | answers for the whole manager or for an installed index; the whole-manager answer is the running maximum of the installed minima, and in a valid manager no species' own minimum exceeds it |
| NasaThermoScons.NasaThermo.MaxTemp | cantera18/branches/scons/Cantera/src/thermo/NasaThermo.h:333-338 | answers for the whole manager or for an installed index; the whole-manager answer is the running minimum of the installed maxima, and in a valid manager no species' own maximum is below it |
| NasaThermoScons.NasaThermo.ReportParams | cantera18/branches/scons/Cantera/src/thermo/NasaThermo.h:379-416 | succeeds iff the species was installed, and then reports NASA, the type reportType gives, with all 15 coefficients |
| SpeciesThermoMgr.SubInstall | cantera/branches/hdf5/include/cantera/thermo/SpeciesThermoMgr.h:286-293 | the sub-manager stores exactly the new species' parameters, keeps the others, and its common range only narrows to include the new limits; it throws "species have different reference pressures" iff it checks pressures and a stored one is more than 0.1 Pa away, keeping its old pressure and the stored species, and otherwise stores the new pressure |
| SpeciesThermoMgr.SubUpdate | cantera/branches/hdf5/include/cantera/thermo/SpeciesThermoMgr.h:304-305 | a sub-manager's update writes the slot of every species it holds and no other |
| SpeciesThermoMgr.InstallRoutes | cantera/branches/hdf5/include/cantera/thermo/SpeciesThermoMgr.h:279-297 | install succeeds iff the type is one of the two IDs and that sub-manager accepts the pressure; the duo's pressure is overwritten in every case; an unknown type throws UnknownSpeciesThermo and changes nothing else; a sub-manager's throw passes through with the species stored there but no type recorded; an accepted install records the type for sp only |
| SpeciesThermoMgr.InstallThenReport | cantera/branches/hdf5/include/cantera/thermo/SpeciesThermoMgr.h:279-337 | install keeps the routing invariant, and reportParams gives back what was installed |
| SpeciesThermoMgr.ReportDefined | cantera/branches/hdf5/include/cantera/thermo/SpeciesThermoMgr.h:308-337 | a recorded species reports its parameters under its recorded type; an unrecorded one is "confused" (unless -1 is an ID) |
| SpeciesThermoMgr.CommonRange | cantera/branches/hdf5/include/cantera/thermo/SpeciesThermoMgr.h:162-178 | minTemp is the larger and maxTemp the smaller of the two sub-managers' limits |
| SpeciesThermoMgr.UpdateFollowsType | cantera/branches/hdf5/include/cantera/thermo/SpeciesThermoMgr.h:299-306 | a species held by one sub-manager is evaluated by the one its type names; species held by neither keep their slots |
| SpeciesThermoMgr.SpeciesThermoDuo.constructor | cantera/branches/hdf5/include/cantera/thermo/SpeciesThermoMgr.h:68 | a duo over two empty sub-managers and no species satisfies the routing invariant |
| SpeciesThermoMgr.SpeciesThermoDuo.Assign | cantera/branches/hdf5/include/cantera/thermo/SpeciesThermoMgr.h:255-268 | all four fields become the right-hand side's; self-assignment changes nothing |
| SpeciesThermoMgr.SpeciesThermoDuo.Install | cantera/branches/hdf5/include/cantera/thermo/SpeciesThermoMgr.h:279-297 | the new state and the result are InstallOf's, including a sub-manager's throw after m_p0 is written, and the routing invariant is kept |
| SpeciesThermoMgr.SpeciesThermoDuo.Update | cantera/branches/hdf5/include/cantera/thermo/SpeciesThermoMgr.h:299-306 | m_thermo1 then m_thermo2 write the shared output |
| SpeciesThermoMgr.SpeciesThermoDuo.MinTemp | cantera/branches/hdf5/include/cantera/thermo/SpeciesThermoMgr.h:162-164 | whatever k, the larger of the two sub-managers' minima: at least each of them, and equal to one of them |
| SpeciesThermoMgr.SpeciesThermoDuo.MaxTemp | cantera/branches/hdf5/include/cantera/thermo/SpeciesThermoMgr.h:176-178 | whatever k, the smaller of the two sub-managers' maxima: at most each of them, and equal to one of them |
| SpeciesThermoMgr.SpeciesThermoDuo.ReportType | cantera/branches/hdf5/include/cantera/thermo/SpeciesThermoMgr.h:308-317 | the flag recorded when the species was installed, and -1 for a species never installed |
| SpeciesThermoMgr.SpeciesThermoDuo.ReportParams | cantera/branches/hdf5/include/cantera/thermo/SpeciesThermoMgr.h:319-337 | in a valid duo a recorded species reports parameters of its recorded type; an unrecorded one is "confused" (unless -1 is one of the flags) |
| SpeciesThermoMgr.UpdateSub | cantera/branches/hdf5/include/cantera/thermo/SpeciesThermoMgr.h:304-305 | one sub-manager's update on the shared array |
| Arrays.Row | cantera18/branches/Revision_1.8.0/Cantera/src/base/Array.h:161-165 | a row read across the columns has one entry per column |
| Arrays.Column | cantera18/branches/Revision_1.8.0/Cantera/src/base/Array.h:188-192 | a column has one entry per row |
| Arrays.SetRowThenGetRow | cantera18/branches/Revision_1.8.0/Cantera/src/base/Array.h:149-165 | getRow(n) after setRow(n, rw) gives back rw |
| Arrays.SetRowKeepsOtherRows | cantera18/branches/Revision_1.8.0/Cantera/src/base/Array.h:149-153 | setRow(n, ..) leaves every other row unchanged |
| Arrays.SetColumnThenGetColumn | cantera18/branches/Revision_1.8.0/Cantera/src/base/Array.h:175-192 | setColumn(m, col) replaces exactly the run [nRows*m, nRows*(m+1)); getColumn(m) then gives back col and every other column is kept |
| Arrays.SetColumnKeepsColumn | cantera18/branches/Revision_1.8.0/Cantera/src/base/Array.h:175-179 | any one other column is untouched by setColumn |
| Arrays.ColumnIsContiguous | cantera18/branches/Revision_1.8.0/Cantera/src/base/Array.h:298 | the nRows entries from nRows*m on are column m |
| Arrays.AxpyIsScaleThenSum | cantera18/branches/Revision_1.8.0/Cantera/src/base/Array.h:212-217 | axpy equals scaling x and then adding y elementwise |
| Arrays.AppendColumnThenGetColumn | cantera18/branches/Revision_1.8.0/Cantera/src/base/Array.h:114-120 | the documented appendColumn grows the buffer by exactly one column, which reads back as c, and keeps every old column |
| Arrays.AppendColumnAsWrittenClobbers | cantera18/branches/Revision_1.8.0/Cantera/src/base/Array.h:122-127 | on [1, 2, 3, 4] (2 by 2) with column [5, 6] the written code gives [1, 2, 3, 5, 0, 6] where the documented result is [1, 2, 3, 4, 5, 6] |
| Arrays.AppendColumnAsWrittenOneRow | cantera18/branches/Revision_1.8.0/Cantera/src/base/Array.h:122-127 | on any one-row array the written code writes one past the end of the grown buffer |
| Arrays.Array2D.Empty | cantera18/branches/Revision_1.8.0/Cantera/src/base/Array.h:59-61 | no rows, no columns, an empty buffer |
| Arrays.Array2D.Filled | cantera18/branches/Revision_1.8.0/Cantera/src/base/Array.h:72-76 | m rows, n columns, m*n entries all equal to v |
| Arrays.Array2D.Copy | cantera18/branches/Revision_1.8.0/Cantera/src/base/Array.h:82-87 | the dimensions and buffer of the original |
| Arrays.Array2D.Assign | cantera18/branches/Revision_1.8.0/Cantera/src/base/Array.h:93-100 | the dimensions and buffer of the right-hand side; self-assignment changes nothing |
| Arrays.Array2D.Resize | cantera18/branches/Revision_1.8.0/Cantera/src/base/Array.h:108-112 | n rows and m columns with a buffer of n*m entries: the old flat prefix is kept and new entries are v |
| Arrays.Array2D.AppendColumnAsWritten | cantera18/branches/Revision_1.8.0/Cantera/src/base/Array.h:122-127 | the written code: the column count goes up by one and the buffer is the as-written result, or an error when a write falls outside the buffer |
| Arrays.Array2D.AppendColumn | cantera18/branches/Revision_1.8.0/Cantera/src/base/Array.h:114-120 | the corrected appendColumn: one more column, and the buffer is the old one followed by the first nRows entries of c |
| Arrays.Array2D.SetRow | cantera18/branches/Revision_1.8.0/Cantera/src/base/Array.h:149-153 | the dimensions are kept and entry (n, j) becomes rw[j] for every column j, and no other entry changes |
| Arrays.Array2D.GetRow | cantera18/branches/Revision_1.8.0/Cantera/src/base/Array.h:161-165 | the output's first nColumns entries are row n; the rest is untouched |
| Arrays.Array2D.SetColumn | cantera18/branches/Revision_1.8.0/Cantera/src/base/Array.h:175-179 | the dimensions are kept and only column m's run is replaced by col |
| Arrays.Array2D.WriteRun | cantera18/branches/Revision_1.8.0/Cantera/src/base/Array.h:176-178 | the loop writes col over the run from lo and nothing else |
| Arrays.Array2D.GetColumn | cantera18/branches/Revision_1.8.0/Cantera/src/base/Array.h:188-192 | the output's first nRows entries are column m; the rest is untouched |
| Arrays.Array2D.Axpy | cantera18/branches/Revision_1.8.0/Cantera/src/base/Array.h:212-217 | entry k becomes a*x[k] + y[k] over this array's own length, even when x or y is this array |
| Arrays.Array2D.Value | cantera18/branches/Revision_1.8.0/Cantera/src/base/Array.h:251-253 | value(i, j) in range is entry i of column j and entry j of row i (column-major) |
| Arrays.Array2D.SetValue | cantera18/branches/Revision_1.8.0/Cantera/src/base/Array.h:251-253 | writing through value(i, j) changes flat index nRows*j + i only |
| Arrays.Array2D.PtrColumn | cantera18/branches/Revision_1.8.0/Cantera/src/base/Array.h:298 | ptrColumn(j) addresses column j, whose nRows entries follow contiguously |
| Arrays.Array2D.ScaleBy | cantera18/branches/Revision_1.8.0/Cantera/src/base/Array.h:354-356 | every entry multiplied by a |
| Arrays.Array2D.AddEach | cantera18/branches/Revision_1.8.0/Cantera/src/base/Array.h:367-369 | each entry plus the matching entry of y |
| OneDimSolver.OneDim.Transient | cantera18/branches/scons/Cantera/src/oneD/OneDim.h:100-103 | transient() holds exactly when steady() does not |
| OneDimSolver.OneDim.SetSteadyMode | cantera18/branches/scons/Cantera/src/oneD/OneDim.h:106-110 | afterwards the problem is steady and not transient |
| OneDimSolver.OneDim.SetMinTimeStep | cantera18/branches/scons/Cantera/src/oneD/OneDim.h:145 | writes the minimum time step and nothing else |
| OneDimSolver.OneDim.SetMaxTimeStep | cantera18/branches/scons/Cantera/src/oneD/OneDim.h:146 | writes the maximum time step and nothing else |
| OneDimSolver.OneDim.SetTimeStepFactor | cantera18/branches/scons/Cantera/src/oneD/OneDim.h:147 | writes the time-step factor and nothing else |
| OneDimSolver.OneDim.SetJacAge | cantera18/branches/scons/Cantera/src/oneD/OneDim.h:148-154 | the steady age becomes ss; the transient age becomes ts when it is positive, ss otherwise |
| Sim1DSolver.Sim1D.SetSolution | cantera18/changes/liquidTransportDevelop/Cantera/src/oneD/Sim1D.h:111-113 | solution() then gives back the first \|m_x\| entries of the input; the length is unchanged |
| Sim1DSolver.Sim1D.Eval | cantera18/changes/liquidTransportDevelop/Cantera/src/oneD/Sim1D.h:91-93 | m_xnew receives OneDim::eval over all points (j = -1) of m_x with rdt and count passed through; m_x is unchanged |
| FlowDevices.FlowDevice.constructor | cantera/trunk/include/cantera/zeroD/FlowDevice.h:35-37 | no flow, type 0, no rate function, no reactors, and therefore not ready |
| FlowDevices.FlowDevice.MassFlowRate | cantera/trunk/include/cantera/zeroD/FlowDevice.h:49-54 | the base class returns the stored rate, whatever the time |
| FlowDevices.FlowDevice.Ready | cantera/trunk/include/cantera/zeroD/FlowDevice.h:125-127 | ready iff both the upstream and the downstream reactor are set |
| FlowDevices.FlowDevice.SetParameters | cantera/trunk/include/cantera/zeroD/FlowDevice.h:140-143 | the coefficients become exactly the first n inputs |
| FlowDevices.FlowDevice.SetMassFlowRate | cantera/trunk/include/cantera/zeroD/FlowDevice.h:151-153 | the stored rate, which massFlowRate then returns |
| VcsRearrange.FindSlot | cantera18/branches/pecos_autotools/Cantera/src/equil/vcs_rearrange.cpp:39-43 | the scan stops at the first position holding species i, or ends at the last position when none does |
| VcsRearrange.Swap | cantera18/branches/pecos_autotools/Cantera/src/equil/vcs_rearrange.cpp:49 | the switch exchanges two entries of the map and keeps the rest |
| VcsRearrange.SwapKeepsMultiset | cantera18/branches/pecos_autotools/Cantera/src/equil/vcs_rearrange.cpp:49 | a switch keeps the map a rearrangement of the same values |
| VcsRearrange.StepRestoresOne | cantera18/branches/pecos_autotools/Cantera/src/equil/vcs_rearrange.cpp:34-49 | on a permutation with the first i species in place, one pass puts species i in place and keeps the rest a permutation |
| VcsRearrange.RearrangeFromRestores | cantera18/branches/pecos_autotools/Cantera/src/equil/vcs_rearrange.cpp:34-50 | continuing from i with the first i in place ends at the identity |
| VcsRearrange.RearrangeRestoresOrder | cantera18/branches/pecos_autotools/Cantera/src/equil/vcs_rearrange.cpp:25-52 | on a permutation of 0..n-1 the rearrangement restores the original order (the identity) |
| VcsRearrange.RearrangeFromSplit | cantera18/branches/pecos_autotools/Cantera/src/equil/vcs_rearrange.cpp:34-50 | the loop over the first n positions rearranges those positions alone and leaves every later entry untouched |
| VcsRearrange.RearrangePrefixRestoresOrder | cantera18/branches/pecos_autotools/Cantera/src/equil/vcs_rearrange.cpp:25-52 | with m_numSpeciesTot below the map's length, a permutation of 0..n-1 in the first n entries is restored to that order and the entries beyond are unchanged |
| VcsRearrange.VcsSolve.Rearrange | cantera18/branches/pecos_autotools/Cantera/src/equil/vcs_rearrange.cpp:29-52 | returns 0 and leaves the map as the specification's search-and-switch over the species gives it |
| VcsRearrange.VcsSolve.FindSpecies | cantera18/branches/pecos_autotools/Cantera/src/equil/vcs_rearrange.cpp:39-43 | the inner loop returns the specification's slot |
| VcsRearrange.VcsSolve.SwitchPos | cantera18/branches/pecos_autotools/Cantera/src/equil/vcs_rearrange.cpp:49 | the map becomes the swap of the two positions |
| VcsRearrange.FindSlotIsFirst | cantera18/branches/pecos_autotools/Cantera/src/equil/vcs_rearrange.cpp:39-43 | a first match, or the last slot when there is none, is the scan's result |
| Units.UnitRelations | trunk/BackEnd/src/base/cantera_types.h:18-36 | a day is 86400 s and an hour 60 min; 1 kg = 1000 g; 1 kJ = 1000 J; 1 kmol = 1000 mol; cm, km, nm and microns scale as their prefixes |

## Left out

**Floating-point numerics and logging**
- Polynomial evaluation (NasaPoly1::updateProperties, enthalpy, entropy) is floating-point numerics. Update records which polynomial each slot received.
- checkContinuity only logs warnings about float tolerances.
- installMinEQ3asShomateThermoFromXML and LookupGe/convertDGFormation are float conversions that depend on a ThermoPhase which is not part of this model. The MineralEQ3 path passes its block on as `MinEQ3Install`.
- The Mu0 installer is not part of this model. Its block is passed on as `Mu0Install`.

**Compiled-out and unimplemented code**
- These sit under #ifdef and are compiled out by default:
  - installNasa96ThermoFromXML and installAdsorbateThermoFromXML;
  - the Hf298 members of both NasaThermo variants;
  - reportOneHf298/modifyOneHf298.
- install_STIT of NasaThermo and SpeciesThermoDuo only throws "not implemented". NASA9 installation returns the regions it would hand over.

**Factory wrappers**
- The factory singleton factory()/deleteFactory and its mutex are global state and locking.
- The global newSpeciesThermoMgr wrappers and installVPThermoForSpecies only forward to the members modelled here.
- newSpeciesThermoOpt has the same body as newSpeciesThermo(list), which `NewSpeciesThermo` models.

**Number types**
- cantera_types.h's typedefs are not modelled as types of their own. `Real` (double) is `real` throughout, `Integer` (long) is `int` or `nat`, and `Array_FP`/`Array_Int` are sequences. Floating-point rounding and integer overflow are therefore not modelled.

**Input and output**
- XML parsing (fpValue, getFloatArray, getFloat) is text parsing. Nodes carry numbers already.
- Array2D operator<< is output.
- Array2D's iterators and the raw data() accessor are not modelled. ptrColumn returns the column's offset.

**Classes whose bodies are elsewhere**
- The OneDim and Sim1D solver algorithms are defined in .cpp files that are not part of this model: addDomain, init, eval, ssnorm, solve, timeStep, refine, the Jacobian and Newton iteration, and their constructors.
- Sim1D's setRefineCriteria (dom = -1, ratio = 10, slope = 0.8, curve = 0.8, prune = -0.1) and setMaxGridPoints (dom = -1, npoints = 300) are defined in Sim1D.cpp, which is not part of this model. With no body to model, their default arguments are not modelled either.
- FlowDevice::install and setFunction are defined in FlowDevice.cpp, which is not part of this model. No model operation sets the reactors, so ready() stays false in the model.

**Concurrency**
- None of this code is concurrent; aliasing is covered where the source allows it (Axpy and AddEach read their operands before writing).

**Weaker or parameterised contracts**
- OneDimSolver.OneDim.SetSteadyMode: its body is in OneDim.cpp. It is modelled by the documented effect (steady() afterwards), as setting the reciprocal time step to zero.
- SpeciesThermoMgr.SpeciesThermoDuo.constructor: the source leaves m_p0 uninitialised, so the model takes its first value as a parameter.
- VcsRearrange.VcsSolve.SwitchPos: it models vcs_switch_pos only on the species map. The other per-species arrays it moves are not modelled.
- Arrays.Array2D.Filled: takes the dimensions as nat, so negative int sizes (undefined in the source) are not modelled. The same holds for Resize.

**Cases where the source's behaviour is undefined, reported as errors**
- NasaGroups.ReportParamsOf: a species never installed reads outside m_low in the source. The model reports OutOfRange, and the same holds for update_one and modifyParams.
- SpeciesThermoFactory.InstallNasaThermoFromXml: a single block with more than seven coefficients overflows c1 in the source. The model reports an error, as it does for arrays shorter than seven.

**Unreachable or incidental state**
- NasaThermoScons.ModifyParamsOf: the final "confused" branch needs reportType to be other than NASA, which cannot happen. It is not modelled.
- The scratch vector m_t of NasaThermo is not modelled.
- NasaGroups.ApplyLastWriteWins: re-installing a species leaves its old entry in its old group, as the source does. Update then evaluates both entries, and the later write wins.

## Findings

| source | as written | input that shows it | evidently intended | confidence | as-written member | corrected member |
|---|---|---|---|---|---|---|
| cantera18/branches/Revision_1.8.0/Cantera/src/base/Array.h:122-127 | appendColumn writes `value(m_ncols, m) = c[m]`, that is, row m_ncols and column m: flat index nRows*m + nColumns, after nColumns has been incremented (the same at lines 137-142) | a 2-by-2 array [1, 2, 3, 4] with column [5, 6] becomes [1, 2, 3, 5, 0, 6], which overwrites entry (1, 1); with one row, the write lands one past the end of the buffer | entry m of c goes to value(m, nColumns-1), so the buffer grows by exactly the new column: [1, 2, 3, 4, 5, 6] | not executed | Arrays.AppendColumnAsWrittenClobbers | Arrays.Array2D.AppendColumn |
