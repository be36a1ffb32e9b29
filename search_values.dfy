/** The values the searches compare: integers extended with the two
    infinities the code writes as `-inf` and `inf`, an optional action for
    `None`, and the name of the winner read off a value's sign. */
module SearchValues {

  datatype ExtInt = NegInf | Fin(n: int) | PosInf
  {
    /** `this <= other` in the extended order. */
    predicate Le(other: ExtInt)
    {
      match (this, other)
      case (NegInf, _) => true
      case (_, PosInf) => true
      case (Fin(x), Fin(y)) => x <= y
      case _ => false
    }

    /** `this < other` in the extended order. */
    predicate Lt(other: ExtInt)
    {
      !other.Le(this)
    }
  }

  lemma LeTrans(x: ExtInt, y: ExtInt, z: ExtInt)
    requires x.Le(y) && y.Le(z)
    ensures x.Le(z)
  {
  }

  lemma LeTotal(x: ExtInt, y: ExtInt)
    ensures x.Le(y) || y.Le(x)
    ensures x.Le(y) && y.Le(x) ==> x == y
  {
  }

  /** Python's `max(x, y)`. */
  function Max(x: ExtInt, y: ExtInt): (r: ExtInt)
    ensures x.Le(r) && y.Le(r)
    ensures r == x || r == y
  {
    if x.Le(y) then y else x
  }

  /** Python's `min(x, y)`. */
  function Min(x: ExtInt, y: ExtInt): (r: ExtInt)
    ensures r.Le(x) && r.Le(y)
    ensures r == x || r == y
  {
    if x.Le(y) then x else y
  }

  datatype Option<T> = None | Some(value: T)

  /** The name of the side a root value favours: "Max" when it is above 0,
      "Min" when it is below 0, "Tie" at 0. */
  function Verdict(v: ExtInt): (r: string)
    ensures r == "Max" <==> Fin(0).Lt(v)
    ensures r == "Min" <==> v.Lt(Fin(0))
    ensures r == "Tie" <==> v == Fin(0)
  {
    if Fin(0).Lt(v) then "Max" else if v.Lt(Fin(0)) then "Min" else "Tie"
  }
}
