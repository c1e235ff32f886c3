/**
 * Sim1D's solution buffer: the solution vector m_x it owns and the work
 * vector m_xnew its residual evaluation writes.  The solver, the refinement
 * setters and the refinement algorithms live in Sim1D.cpp and OneDim.cpp and
 * are not part of this model; OneDim::eval enters as a function parameter.
 */
module Sim1DSolver {

  /** The arguments Sim1D::eval passes on to OneDim::eval besides the two buffers. */
  datatype EvalCall = EvalCall(j: int, rdt: real, count: int)

  /** The domain index OneDim::eval takes to mean "every point of every domain". */
  const AllDomains: int := -1

  class Sim1D {
    var x: array<real>      // the solution vector
    var xnew: array<real>   // the residual or new solution

    /** solution(): the solution vector. */
    function Solution(): seq<real>
      reads this, x
    {
      x[..]
    }

    /**
     * setSolution(soln): copy as many entries as the solution vector holds
     * from soln; the vector keeps its length, and solution() then gives back
     * that prefix of soln.
     */
    method SetSolution(soln: seq<real>)
      requires x.Length <= |soln|
      modifies x
      ensures Solution() == soln[..x.Length]
    {
      for k := 0 to x.Length
        invariant x[..k] == soln[..k]
      {
        x[k] := soln[k];
      }
    }

    /**
     * eval(rdt, count): OneDim::eval over all points (j = -1) reading the
     * solution vector and writing the work vector, with rdt and count passed
     * through unchanged.
     */
    method Eval(rdt: real, count: int, oneDimEval: (EvalCall, seq<real>) -> seq<real>)
      requires x != xnew
      requires |oneDimEval(EvalCall(AllDomains, rdt, count), x[..])| == xnew.Length
      modifies xnew
      ensures xnew[..] == oneDimEval(EvalCall(AllDomains, rdt, count), x[..])
      ensures x[..] == old(x[..])
    {
      var r := oneDimEval(EvalCall(AllDomains, rdt, count), x[..]);
      forall k | 0 <= k < xnew.Length {
        xnew[k] := r[k];
      }
      assert x[..] == old(x[..]);
      assert xnew[..] == r;
    }
  }
}
