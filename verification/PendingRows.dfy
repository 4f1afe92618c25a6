/** A pending row of a queue, without its place in it. */
module PendingRows {

  /** One pending row. `id == 0` means "no row id", `handoff == 0` "no DLQ handoff". */
  datatype Row<+T> = Row(id: nat, item: T, attempt: int, handoff: nat)

  /** An absent or non-positive handoff count is stored as "none". */
  function ActiveHandoff(value: int): nat {
    if value > 0 then value else 0
  }
}
