/** The part of an optimisation problem that the kernels read: dimensions and bounds. */
module Problems {
  import opened LinearAlgebra
  import opened SparseVec

  datatype Option<T> = None | Some(value: T)

  datatype ActiveState = Inactive | ActiveLower | ActiveUpper | ActiveBoth

  datatype Problem = Problem(varsLb: Vec, varsUb: Vec, consLb: Vec, consUb: Vec)
  {
    function NumVars(): nat { varsLb.dim }

    function NumCons(): nat { consLb.dim }

    ghost predicate Shaped()
    {
      && varsLb.Valid() && varsUb.Valid() && consLb.Valid() && consUb.Valid()
      && varsLb.dim == varsUb.dim && consLb.dim == consUb.dim
    }

    /** What problem creation checks: matching dimensions and no lower bound above its upper bound. */
    ghost predicate Valid()
    {
      && Shaped()
      && (forall j :: 0 <= j < varsLb.dim ==> varsLb.At(j) <= varsUb.At(j))
      && (forall i :: 0 <= i < consLb.dim ==> consLb.At(i) <= consUb.At(i))
    }
  }
}
