/** Extended integers for search values: the source initialises its running
    maximum and minimum with floating-point minus and plus infinity, and every
    finite value it ever stores is an integer. */
module Scores {

  datatype Option<T> = None | Some(value: T)

  datatype Ext = NegInf | Fin(v: int) | PosInf

  /** Strict order on extended integers, as Python compares ints with infinities. */
  predicate Less(a: Ext, b: Ext)
  {
    match (a, b)
    case (NegInf, NegInf) => false
    case (NegInf, _) => true
    case (Fin(x), Fin(y)) => x < y
    case (Fin(_), PosInf) => true
    case (_, _) => false
  }

  predicate LessEq(a: Ext, b: Ext)
  {
    Less(a, b) || a == b
  }

  /** `max(a, b)`: the larger of two search values. */
  function Max(a: Ext, b: Ext): (r: Ext)
    ensures LessEq(a, r) && LessEq(b, r)
    ensures r == a || r == b
  {
    if Less(a, b) then b else a
  }

  /** `min(a, b)`: the smaller of two search values. */
  function Min(a: Ext, b: Ext): (r: Ext)
    ensures LessEq(r, a) && LessEq(r, b)
    ensures r == a || r == b
  {
    if Less(b, a) then b else a
  }

  /** Adds a finite amount; an infinite value absorbs it. */
  function Plus(a: Ext, d: int): (r: Ext)
    ensures a.Fin? <==> r.Fin?
    ensures !a.Fin? ==> r == a
  {
    match a
    case Fin(x) => Fin(x + d)
    case _ => a
  }

  function Abs(x: int): (r: int)
    ensures r >= 0 && (r == x || r == -x)
  {
    if x < 0 then -x else x
  }

  /** `Less` is a strict total order. */
  lemma LessTotal(a: Ext, b: Ext)
    ensures Less(a, b) || a == b || Less(b, a)
    ensures !(Less(a, b) && Less(b, a))
  {
  }

  /** Chaining a strict step with a weak one gives a strict step. */
  lemma LessChain(a: Ext, b: Ext, c: Ext)
    ensures LessEq(a, b) && LessEq(b, c) ==> LessEq(a, c)
    ensures Less(a, b) && LessEq(b, c) ==> Less(a, c) && a != c
    ensures LessEq(a, b) && Less(b, c) ==> Less(a, c) && a != c
  {
  }
}
