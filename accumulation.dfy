/**
 * The averaging accumulator used by a reduction, left uninterpreted: a
 * starting state, a step that folds one network in, and a finishing step
 * that yields the averaged network.
 */
module Accumulation {
  import opened Messages

  /** The accumulator's running state (a sum of parameters and a count, say). */
  type AccState

  datatype Averager = Averager(
    empty: AccState,
    accumulate: (AccState, Network) -> AccState,
    averaged: AccState -> Network)

  /** The networks held by a sequence of contributions, in order. */
  function Nets(ups: seq<Update>): seq<Network>
  {
    seq(|ups|, i requires 0 <= i < |ups| => ups[i].net)
  }

  /** The accumulator's state after folding in `nets` from left to right. */
  function Folded(avg: Averager, nets: seq<Network>): AccState
  {
    if nets == [] then avg.empty
    else avg.accumulate(Folded(avg, nets[..|nets| - 1]), nets[|nets| - 1])
  }

  /** The averaged network a fresh accumulator yields for `ups`. */
  function Average(avg: Averager, ups: seq<Update>): Network
  {
    avg.averaged(Folded(avg, Nets(ups)))
  }
}
