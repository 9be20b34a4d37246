module Wrappers {
  datatype Option<+T> = None | Some(value: T)
}

/** One tracked allocation, as the tracker stores it. */
module Records {
  /** Pointers are addresses; 0 is null. `frames` are the captured call-stack entries, innermost first. */
  datatype Record = Record(
    allocationId: nat, userPtr: nat, rawPtr: nat, requested: nat, total: nat, alignment: nat,
    threadId: nat, tag: nat, frames: seq<nat>)

  /** Records by some key: the tracker's by user pointer. */
  type Table = map<nat, Record>
}
