/** The send window of a daemon that holds the token. */
module FlowControl {
  import opened SpreadTypes

  /** `window` limits the whole ring per rotation, `personal` one daemon per visit. */
  datatype Windows = Windows(window: int, personal: int, accelerated: bool)

  /** How many new packets the holder may send, given the token's count for the last rotation. */
  function Allowed(w: Windows, evs: bool, flow: int, highest: int, stable: int): (allowed: int)
    ensures allowed > 0 ==> !evs && highest <= stable + MAX_SEQ_GAP
    ensures allowed > 0 ==> allowed <= w.window && allowed <= w.personal && flow + allowed <= w.window + w.personal
  {
    if evs then 0
    else if highest > stable + MAX_SEQ_GAP then 0
    else
      var room := w.window + w.personal - flow;
      var atLeastNone := if room < 0 then 0 else room;
      var capped := if atLeastNone > w.window then w.window else atLeastNone;
      if capped > w.personal then w.personal else capped
  }

  /** Every number of packets that both windows leave room for is allowed while the ring is within the gap. */
  lemma LargestAllowance(w: Windows, flow: int, highest: int, stable: int, n: nat)
    requires highest <= stable + MAX_SEQ_GAP
    requires n <= w.window && n <= w.personal && flow + n <= w.window + w.personal
    ensures n <= Allowed(w, false, flow, highest, stable)
  {
  }
}
