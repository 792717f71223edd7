/** Names shared by every part of the model. */
module Common {

  datatype Option<+T> = None | Some(value: T)

  type Mac = string
  type Vlan = string
  type Ip = string

  /** Seconds since the epoch. Redis scores and Python timestamps are floats: rounding is not modelled. */
  type Time = real

  ghost predicate Distinct<T>(items: seq<T>) {
    forall i, j :: 0 <= i < j < |items| ==> items[i] != items[j]
  }
}
