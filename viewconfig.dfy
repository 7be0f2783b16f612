/**
 * The pieces of filter and sort configuration that the Courses, Faculty and
 * Library views share: a categorical filter whose `'all'` value imposes
 * nothing, and a sort direction that flips the comparator's sign.
 */
module ViewConfig {

  datatype Option<T> = None | Some(value: T)

  /** A categorical filter: `'all'`, or one selected value. */
  datatype Choice<T> = All | Only(value: T)

  /** `selected === 'all' || field === selected`. */
  predicate Admits<T(==)>(selected: Choice<T>, field: T)
  {
    selected.All? || selected.value == field
  }

  datatype SortOrder = Asc | Desc

  /** The other direction, as the sort-order toggle computes it. */
  function Flip(order: SortOrder): (r: SortOrder)
    ensures r != order
  {
    if order == Asc then Desc else Asc
  }

  /** `sortOrder === 'asc' ? comparison : -comparison`. */
  function Directed(order: SortOrder, comparison: int): (r: int)
    ensures r == 0 <==> comparison == 0
  {
    if order == Asc then comparison else -comparison
  }
}
