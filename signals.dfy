/**
 * The timer's stop, pause and resume channels. Each is a Go channel of capacity 1 whose
 * values (always `true`) are never looked at, so all that matters is whether its one slot is full.
 */
module Signals {
  datatype Slot = Empty | Full

  /** `select { case ch <- true: default: }`: takes the value if the slot has room, drops it otherwise. */
  function TrySend(s: Slot): (r: Slot)
    ensures r == Full
    ensures s == Full ==> r == s
  {
    match s
    case Empty => Full
    case Full => s
  }

  /** A receive `<-ch` can go ahead only when the slot holds a value. */
  predicate CanReceive(s: Slot) {
    s == Full
  }

  /** Sending twice leaves the slot as sending once: the second signal is dropped, not queued. */
  lemma TrySendIdempotent(s: Slot)
    ensures TrySend(TrySend(s)) == TrySend(s)
    ensures CanReceive(TrySend(s))
  {
  }
}
