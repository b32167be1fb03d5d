/** What each critical section of the replay guard does to memory and to the state file. */
module GuardSpec {
  import opened Bytes
  import opened GuardFile
  import opened Disk

  datatype AdvanceResult = AdvanceOk | AdvanceRejected | AdvanceUnsaved

  /** CheckAndAdvance: a timestamp at or below the mark is rejected. Otherwise the new mark
      is written with no memo, and memory is rolled back if that write reports an error. */
  function Advance(g: Guard, d: Disk<Guard>, ts: uint64, fate: Fate): (Guard, Disk<Guard>, AdvanceResult) {
    if ts <= g.mark then (g, d, AdvanceRejected)
    else
      var d' := Write(d, Guard(ts, None), fate);
      if fate.Succeeds? then (Guard(ts, None), d', AdvanceOk) else (g, d', AdvanceUnsaved)
  }

  /** RecordSignature: the memo is set in memory before it is written, and is kept there even
      if the write fails. A request whose mark has been passed records nothing. */
  function Record(g: Guard, d: Disk<Guard>, ts: uint64, m: Memo, fate: Fate): (Guard, Disk<Guard>, bool) {
    if ts != g.mark then (g, d, true)
    else (Guard(ts, Some(m)), Write(d, Guard(ts, Some(m)), fate), fate.Succeeds?)
  }

  /** CachedSignature: only an exact repeat of the request at the mark is answered. */
  function Cached(g: Guard, ts: uint64, checkpoint: bytes): Option<bytes> {
    if ts == g.mark && g.memo.Some? && g.memo.value.checkpoint == checkpoint then Some(g.memo.value.signature) else None
  }
}
