/**
 * Parameterised SQL as the lib code builds it: a list of bound parameters and,
 * for multi-row inserts, a list of `($a, $b, ...)` groups naming 1-based positions
 * in that list. Text of the statements themselves is not modelled.
 */
module Sql {
  import opened Wrappers

  datatype Param = PText(s: string) | PInt(i: int) | PTime(t: int) | PNull

  /** One `($a, $b, ...)` group of a `values` list: the positions it names. */
  datatype Tuple = Tuple(slots: seq<nat>)

  /** The parameter `$slot` refers to. */
  function Bind(params: seq<Param>, slot: nat): (r: Option<Param>)
    ensures r.Some? <==> 1 <= slot <= |params|
    ensures r.Some? ==> r.value == params[slot - 1]
  {
    if 1 <= slot <= |params| then Some(params[slot - 1]) else None
  }

  /** Appending parameters leaves every slice of the earlier ones as it was. */
  lemma SliceOfPrefix(a: seq<Param>, b: seq<Param>, i: int, j: int)
    requires 0 <= i <= j <= |a|
    ensures (a + b)[i..j] == a[i..j]
  {
  }

  /** The placeholders `($4k+1, $4k+2, $4k+3, $4k+4)` of the k-th four-column row. */
  function FourSlots(k: nat): Tuple {
    Tuple([4 * k + 1, 4 * k + 2, 4 * k + 3, 4 * k + 4])
  }
}
