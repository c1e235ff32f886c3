/**
 * OneDim, the container of a multi-domain one-dimensional problem: the
 * state its inline members read and the options its inline setters write.
 * The solver itself (addDomain, init, eval, solve, timeStep, the Jacobian
 * and the Newton iteration) lives in OneDim.cpp and is not part of this model.
 */
module OneDimSolver {

  /** A domain as the container sees it: where its block starts in the solution vector. */
  datatype Domain1D = Domain1D(loc: nat)

  class OneDim {
    var tmin: real       // minimum time step
    var tmax: real       // maximum time step
    var tfactor: real    // factor the time step is multiplied by when a step fails
    var rdt: real        // reciprocal of the time step; zero in steady mode
    var nd: nat          // number of domains
    var bw: nat          // Jacobian bandwidth
    var size: nat        // solution vector length
    var dom: seq<Domain1D>
    var nvars: seq<nat>  // components at each global point
    var loc: seq<nat>    // offset of each global point's first component
    var pts: nat         // total number of points
    var ssJacAge: int
    var tsJacAge: int

    function NDomains(): nat
      reads this
    {
      nd
    }

    function Domain(i: nat): Domain1D
      reads this
      requires i < |dom|
    {
      dom[i]
    }

    /** start(i): where domain i's block begins, as that domain reports it. */
    function Start(i: nat): nat
      reads this
      requires i < |dom|
    {
      dom[i].loc
    }

    function Size(): nat
      reads this
    {
      size
    }

    /** left(): the left-most domain, the first one in the list. */
    function Left(): Domain1D
      reads this
      requires |dom| > 0
    {
      dom[0]
    }

    /** right(): the right-most domain, the last one in the list. */
    function Right(): Domain1D
      reads this
      requires |dom| > 0
    {
      dom[|dom| - 1]
    }

    /** nVars(jg): the number of components at global point jg. */
    function NVars(jg: nat): nat
      reads this
      requires jg < |nvars|
    {
      nvars[jg]
    }

    /** loc(jg): where global point jg's first component sits in the solution vector. */
    function Loc(jg: nat): nat
      reads this
      requires jg < |loc|
    {
      loc[jg]
    }

    function Bandwidth(): nat
      reads this
    {
      bw
    }

    function Points(): nat
      reads this
    {
      pts
    }

    function Rdt(): real
      reads this
    {
      rdt
    }

    /** steady(): true iff the reciprocal time step is zero. */
    predicate Steady()
      reads this
    {
      rdt == 0.0
    }

    /** transient(): true iff the reciprocal time step is non-zero -- never together with steady(). */
    function Transient(): (b: bool)
      reads this
      ensures b <==> !Steady()
    {
      rdt != 0.0
    }

    /**
     * setSteadyMode: after it, solves are steady-state ones.  Its body is in
     * OneDim.cpp; it is modelled by that documented effect on m_rdt.
     */
    method SetSteadyMode()
      modifies this`rdt
      ensures Steady() && !Transient()
    {
      rdt := 0.0;
    }

    /** setMinTimeStep: writes the minimum time step and nothing else. */
    method SetMinTimeStep(t: real)
      modifies this`tmin
      ensures tmin == t
    {
      tmin := t;
    }

    /** setMaxTimeStep: writes the maximum time step and nothing else. */
    method SetMaxTimeStep(t: real)
      modifies this`tmax
      ensures tmax == t
    {
      tmax := t;
    }

    /** setTimeStepFactor: writes the step-failure factor and nothing else. */
    method SetTimeStepFactor(f: real)
      modifies this`tfactor
      ensures tfactor == f
    {
      tfactor := f;
    }

    /**
     * setJacAge(ss, ts): the steady-state Jacobian age becomes ss; the
     * transient age becomes ts when that is positive and ss otherwise, so the
     * default ts = -1 gives both the same age.
     */
    method SetJacAge(ss: int, ts: int)
      modifies this`ssJacAge, this`tsJacAge
      ensures ssJacAge == ss
      ensures ts > 0 ==> tsJacAge == ts
      ensures ts <= 0 ==> tsJacAge == ss
    {
      ssJacAge := ss;
      if ts > 0 {
        tsJacAge := ts;
      } else {
        tsJacAge := ssJacAge;
      }
    }
  }
}
