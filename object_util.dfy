/**
 * ObjectUtil.getItem: a total, bounds-checked lookup into a list that may
 * itself be null (`None`); every failure returns null (`None`).
 */
module ObjectUtil {
  import opened Base

  /** `getItem(items, pos)`: the element at `pos` (counting from 0), or null when there is none. */
  function GetItem<T>(items: Option<seq<T>>, pos: int): (r: Option<T>)
    ensures r.Some? <==> items.Some? && 0 <= pos < |items.value|
    ensures r.Some? ==> r.value == items.value[pos]
  {
    if items.None? || pos < 0 || pos >= |items.value| then None else Some(items.value[pos])
  }
}
